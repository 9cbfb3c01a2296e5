/**
 `_reverse_allocations`, `void_payment` and `refund_payment`: taking back what a payment
 settled, newest allocation first, without deleting or re-pricing a row.
 */
module Reversals {
  import opened Arithmetic
  import opened Wrappers
  import opened Sums
  import opened Tables
  import opened Balances
  import opened Posting
  import opened Payments
  import opened Calendar

  /** What the entry's allocations after row `i` still apply. */
  function NewerApplied(rows: seq<Allocation>, e: nat, i: nat): int
    requires i < |rows|
  {
    Sum(rows[i + 1..], OfEntry(e))
  }

  /** Row `i` is reached while some of `amount` is left to take back. */
  predicate Undone(rows: seq<Allocation>, e: nat, amount: int, i: nat)
    requires i < |rows|
  {
    rows[i].entry == e && rows[i].reversedBy.None? && NewerApplied(rows, e, i) < amount
  }

  function StampedRow(rows: seq<Allocation>, e: nat, amount: int, reversing: nat, i: nat): Allocation
    requires i < |rows|
  {
    if Undone(rows, e, amount, i) then rows[i].(reversedBy := Some(reversing)) else rows[i]
  }

  function Stamped(rows: seq<Allocation>, e: nat, amount: int, reversing: nat): seq<Allocation> {
    seq(|rows|, i requires 0 <= i < |rows| => StampedRow(rows, e, amount, reversing, i))
  }

  /** Row `i` is only partly taken back. */
  predicate Splits(rows: seq<Allocation>, e: nat, amount: int, i: nat)
    requires i < |rows|
  {
    Undone(rows, e, amount, i) && amount < NewerApplied(rows, e, i) + rows[i].amount
  }

  /** The part of a split row that stays applied. */
  function Survivor(rows: seq<Allocation>, e: nat, amount: int, i: nat): Allocation
    requires i < |rows|
  {
    Allocation(|rows|, e, rows[i].charge, NewerApplied(rows, e, i) + rows[i].amount - amount, None)
  }

  function SurvivorsFrom(rows: seq<Allocation>, e: nat, amount: int, i: nat): seq<Allocation>
    requires i <= |rows|
    decreases |rows| - i
  {
    if i == |rows| then []
    else
      (if Splits(rows, e, amount, i) then [Survivor(rows, e, amount, i)] else [])
        + SurvivorsFrom(rows, e, amount, i + 1)
  }

  function Survivors(rows: seq<Allocation>, e: nat, amount: int): seq<Allocation> {
    SurvivorsFrom(rows, e, amount, 0)
  }

  function Unapplied(db: Db, e: nat, amount: int, reversing: nat): Db {
    db.(allocations := Stamped(db.allocations, e, amount, reversing) + Survivors(db.allocations, e, amount))
  }

  // ---------------------------------------------------------------------------
  // How much is taken back
  // ---------------------------------------------------------------------------

  /** `v` counts the rows entry `e` still applies in full, or not at all, and counts a
      row of `e` that is reversed not at all. */
  ghost predicate Counts(v: Allocation -> int, e: nat, counted: bool) {
    forall a: Allocation :: a.entry == e ==> v(a) == if counted && a.reversedBy.None? then a.amount else 0
  }

  lemma SuffixStep(rows: seq<Allocation>, i: nat, v: Allocation -> int)
    requires i < |rows|
    ensures Sum(rows[i..], v) == v(rows[i]) + Sum(rows[i + 1..], v)
  {
    assert rows[i..] == [rows[i]] + rows[i + 1..];
    SumConcat([rows[i]], rows[i + 1..], v);
  }

  lemma {:induction false} SuffixNonNegative(rows: seq<Allocation>, e: nat, i: nat)
    requires i <= |rows| && forall k :: 0 <= k < |rows| ==> 0 < rows[k].amount
    ensures 0 <= Sum(rows[i..], OfEntry(e))
  {
    SumNonNegative(rows[i..], OfEntry(e));
  }

  lemma SurvivorsStep(rows: seq<Allocation>, e: nat, amount: int, i: nat, v: Allocation -> int)
    requires i < |rows|
    ensures Sum(SurvivorsFrom(rows, e, amount, i), v)
         == (if Splits(rows, e, amount, i) then v(Survivor(rows, e, amount, i)) else 0)
           + Sum(SurvivorsFrom(rows, e, amount, i + 1), v)
  {
    var s := Survivor(rows, e, amount, i);
    SumConcat(if Splits(rows, e, amount, i) then [s] else [], SurvivorsFrom(rows, e, amount, i + 1), v);
  }

  /** From row `i` on, exactly min(amount, what is applied there) is taken back. */
  lemma {:induction false} TakenBackFrom(rows: seq<Allocation>, e: nat, amount: nat, reversing: nat, i: nat,
                                         v: Allocation -> int, counted: bool)
    requires i <= |rows| && Counts(v, e, counted)
    requires forall k :: 0 <= k < |rows| ==> 0 < rows[k].amount
    ensures Sum(Stamped(rows, e, amount, reversing)[i..], v) + Sum(SurvivorsFrom(rows, e, amount, i), v)
         == Sum(rows[i..], v) - (if counted then Min(amount, Sum(rows[i..], OfEntry(e))) else 0)
    decreases |rows| - i
  {
    var stamped := Stamped(rows, e, amount, reversing);
    if i < |rows| {
      TakenBackFrom(rows, e, amount, reversing, i + 1, v, counted);
      SuffixStep(rows, i, v);
      SuffixStep(stamped, i, v);
      SuffixStep(rows, i, OfEntry(e));
      SuffixNonNegative(rows, e, i + 1);
      SurvivorsStep(rows, e, amount, i, v);
    } else {
      assert rows[i..] == [] && stamped[i..] == [];
    }
  }

  /** The balance computed by any such valuation falls by min(amount, applied). */
  lemma TakenBack(db: Db, e: nat, amount: nat, reversing: nat, v: Allocation -> int, counted: bool)
    requires Counts(v, e, counted)
    requires forall k :: 0 <= k < |db.allocations| ==> 0 < db.allocations[k].amount
    ensures Sum(Unapplied(db, e, amount, reversing).allocations, v)
         == Sum(db.allocations, v) - (if counted then Min(amount, Applied(db, e)) else 0)
  {
    var rows := db.allocations;
    var stamped := Stamped(rows, e, amount, reversing);
    TakenBackFrom(rows, e, amount, reversing, 0, v, counted);
    assert rows[0..] == rows && stamped[0..] == stamped;
    SumConcat(stamped, Survivors(rows, e, amount), v);
  }

  /** At most one row survives in part, and only when more was applied than is taken back. */
  lemma {:induction false} OneSurvivor(rows: seq<Allocation>, e: nat, amount: nat, i: nat)
    requires i <= |rows| && forall k :: 0 <= k < |rows| ==> 0 < rows[k].amount
    ensures |SurvivorsFrom(rows, e, amount, i)| <= 1
    ensures SurvivorsFrom(rows, e, amount, i) != [] ==> amount < Sum(rows[i..], OfEntry(e))
    decreases |rows| - i
  {
    if i < |rows| {
      OneSurvivor(rows, e, amount, i + 1);
      SuffixStep(rows, i, OfEntry(e));
    }
  }

  lemma {:induction false} SurvivorRow(rows: seq<Allocation>, e: nat, amount: int, i: nat, k: nat)
    requires i <= |rows| && k < |SurvivorsFrom(rows, e, amount, i)|
    ensures var s := SurvivorsFrom(rows, e, amount, i)[k];
      && s.id == |rows| && s.entry == e && 0 < s.amount && s.reversedBy.None?
      && exists j :: i <= j < |rows| && rows[j].entry == e && rows[j].charge == s.charge
    decreases |rows| - i
  {
    if i < |rows| {
      var rest := SurvivorsFrom(rows, e, amount, i + 1);
      if Splits(rows, e, amount, i) {
        if 0 < k { SurvivorRow(rows, e, amount, i + 1, k - 1); }
      } else {
        SurvivorRow(rows, e, amount, i + 1, k);
      }
    }
  }

  function OnChargeFrom(c: nat, e: nat): Allocation -> int {
    (a: Allocation) => if a.charge == c && a.entry == e && a.reversedBy.None? then a.amount else 0
  }

  /** No charge ends with more than it had, or with less than the entry's part removed. */
  lemma {:induction false} ChargeLoses(rows: seq<Allocation>, e: nat, amount: nat, reversing: nat, i: nat, c: nat)
    requires i <= |rows| && forall k :: 0 <= k < |rows| ==> 0 < rows[k].amount
    ensures var left := Sum(Stamped(rows, e, amount, reversing)[i..], OnCharge(c))
      + Sum(SurvivorsFrom(rows, e, amount, i), OnCharge(c));
      && Sum(rows[i..], OnCharge(c)) - Sum(rows[i..], OnChargeFrom(c, e)) <= left <= Sum(rows[i..], OnCharge(c))
      && 0 <= Sum(rows[i..], OnCharge(c)) - Sum(rows[i..], OnChargeFrom(c, e))
      && (Sum(rows[i..], OfEntry(e)) <= amount ==>
        left == Sum(rows[i..], OnCharge(c)) - Sum(rows[i..], OnChargeFrom(c, e)))
    decreases |rows| - i
  {
    var stamped := Stamped(rows, e, amount, reversing);
    if i < |rows| {
      ChargeLoses(rows, e, amount, reversing, i + 1, c);
      SuffixStep(rows, i, OnCharge(c));
      SuffixStep(stamped, i, OnCharge(c));
      SuffixStep(rows, i, OnChargeFrom(c, e));
      SuffixStep(rows, i, OfEntry(e));
      SuffixNonNegative(rows, e, i + 1);
      SurvivorsStep(rows, e, amount, i, OnCharge(c));
    } else {
      assert rows[i..] == [] && stamped[i..] == [];
    }
  }

  lemma ChargeAfterUnapply(db: Db, e: nat, amount: nat, reversing: nat, c: nat)
    requires forall k :: 0 <= k < |db.allocations| ==> 0 < db.allocations[k].amount
    ensures 0 <= ActiveOn(Unapplied(db, e, amount, reversing), c) <= ActiveOn(db, c)
    ensures Applied(db, e) <= amount ==>
      ActiveOn(Unapplied(db, e, amount, reversing), c) == ActiveOn(db, c) - Sum(db.allocations, OnChargeFrom(c, e))
  {
    var rows := db.allocations;
    var stamped := Stamped(rows, e, amount, reversing);
    ChargeLoses(rows, e, amount, reversing, 0, c);
    assert rows[0..] == rows && stamped[0..] == stamped;
    SumConcat(stamped, Survivors(rows, e, amount), OnCharge(c));
  }

  /** Once nothing is left to take back, older rows are left alone. */
  lemma {:induction false} OlderRowsKept(rows: seq<Allocation>, e: nat, amount: nat, reversing: nat, i: nat)
    requires i <= |rows| && forall k :: 0 <= k < |rows| ==> 0 < rows[k].amount
    requires amount <= Sum(rows[i..], OfEntry(e))
    ensures SurvivorsFrom(rows, e, amount, 0) == SurvivorsFrom(rows, e, amount, i)
    ensures forall j :: 0 <= j < i ==> !Undone(rows, e, amount, j)
    decreases i
  {
    if 0 < i {
      SuffixStep(rows, i - 1, OfEntry(e));
      OlderRowsKept(rows, e, amount, reversing, i - 1);
    }
  }

  /** Charges that lose no row keep what they had. */
  lemma UnaffectedCharges(db: Db, e: nat, amount: nat, reversing: nat, affected: seq<nat>)
    requires forall k :: 0 <= k < |db.allocations| ==> 0 < db.allocations[k].amount
    requires forall i ::
      0 <= i < |db.allocations| && Undone(db.allocations, e, amount, i) ==> db.allocations[i].charge in affected
    ensures forall c: nat :: c !in affected ==> ActiveOn(Unapplied(db, e, amount, reversing), c) == ActiveOn(db, c)
  {
    var rows := db.allocations;
    var stamped, survivors := Stamped(rows, e, amount, reversing), Survivors(rows, e, amount);
    forall c: nat | c !in affected ensures ActiveOn(Unapplied(db, e, amount, reversing), c) == ActiveOn(db, c) {
      SumConcat(stamped, survivors, OnCharge(c));
      SumMapped(rows, stamped, OnCharge(c), OnCharge(c));
      forall k | 0 <= k < |survivors| ensures OnCharge(c)(survivors[k]) == 0 {
        SurvivorSplits(rows, e, amount, 0, k);
      }
      SumZero(survivors, OnCharge(c));
    }
  }

  lemma {:induction false} SurvivorSplits(rows: seq<Allocation>, e: nat, amount: nat, i: nat, k: nat)
    requires i <= |rows| && k < |SurvivorsFrom(rows, e, amount, i)|
    ensures exists j ::
      i <= j < |rows| && Undone(rows, e, amount, j) && rows[j].charge == SurvivorsFrom(rows, e, amount, i)[k].charge
    decreases |rows| - i
  {
    if i < |rows| {
      if Splits(rows, e, amount, i) {
        if 0 < k { SurvivorSplits(rows, e, amount, i + 1, k - 1); }
      } else {
        SurvivorSplits(rows, e, amount, i + 1, k);
      }
    }
  }

  // ---------------------------------------------------------------------------
  // Voids and refunds
  // ---------------------------------------------------------------------------

  function AfterReversal(db: Db, reversal: Entry, payment: nat, amount: int): Db {
    Restated(Unapplied(AddEntry(db, reversal), payment, amount, reversal.id))
  }

  predicate IsPayment(db: Db, p: nat) { KindIs(db.entries, p, Payment) }

  predicate HasRefund(entries: seq<Entry>, p: nat) {
    exists k :: 0 <= k < |entries| && entries[k].kind == Refund && entries[k].reverses == Some(p)
  }

  function VoidEntry(db: Db, p: nat, now: nat, recorder: int): Entry
    requires p < |db.entries|
  {
    Entry(|db.entries|, db.entries[p].student, Void, db.entries[p].amount, now, recorder, Some(p), false)
  }

  function RefundEntry(db: Db, p: nat, amount: int, toWallet: bool, now: nat, recorder: int): Entry
    requires p < |db.entries|
  {
    Entry(|db.entries|, db.entries[p].student, Refund, amount, now, recorder, Some(p), !toWallet)
  }

  function VoidError(db: Db, p: nat, now: nat): Option<LedgerError> {
    if !IsPayment(db, p) then Some(NotFound)
    else if Voided(db.entries, p) then Some(AlreadyVoided)
    else if HasRefund(db.entries, p) then Some(AlreadyRefunded)
    else if IsClosed(db, PeriodKey(db.entries[p].at)) || IsClosed(db, PeriodKey(now)) then Some(ClosedPeriod)
    else None
  }

  function RefundError(db: Db, p: nat, amount: int, now: nat, financeStaff: bool): Option<LedgerError> {
    if !financeStaff then Some(Forbidden)
    else if !IsPayment(db, p) then Some(NotFound)
    else if Voided(db.entries, p) then Some(AlreadyVoided)
    else if IsClosed(db, PeriodKey(db.entries[p].at)) || IsClosed(db, PeriodKey(now)) then Some(ClosedPeriod)
    else if amount > db.entries[p].amount - Refunded(db, p)
      then Some(ExceedsRefundable(db.entries[p].amount - Refunded(db, p)))
    else None
  }

  function AfterVoid(db: Db, p: nat, now: nat, recorder: int): Db
    requires p < |db.entries|
  {
    AfterReversal(db, VoidEntry(db, p, now, recorder), p, db.entries[p].amount)
  }

  function AfterRefund(db: Db, p: nat, amount: int, toWallet: bool, now: nat, recorder: int): Db
    requires p < |db.entries|
  {
    AfterReversal(db, RefundEntry(db, p, amount, toWallet, now, recorder), p, amount)
  }

  /** A reversal the checks let through. */
  ghost predicate Reversible(db: Db, reversal: Entry, p: nat, amount: int) {
    && IsPayment(db, p) && !Voided(db.entries, p)
    && EntryRowOk(AddEntry(db, reversal), |db.entries|)
    && reversal.reverses == Some(p) && 0 < amount
    && match reversal.kind
       case Void => amount == db.entries[p].amount && Refunded(db, p) == 0
       case Refund => amount == reversal.amount <= db.entries[p].amount - Refunded(db, p)
       case _ => false
  }

  lemma NoRefundNoAmount(db: Db, p: nat)
    requires RowsOk(db) && !HasRefund(db.entries, p)
    ensures Refunded(db, p) == 0
  {
    forall i | 0 <= i < |db.entries| ensures RefundOf(p)(db.entries[i]) == 0 {
      if db.entries[i].kind == Refund && db.entries[i].reverses == Some(p) {
        assert HasRefund(db.entries, p);
        assert false;
      }
    }
    SumZero(db.entries, RefundOf(p));
  }

  lemma VoidIsReversible(db: Db, p: nat, now: nat, recorder: int)
    requires Integrity(db) && VoidError(db, p, now).None?
    ensures p < |db.entries| && Reversible(db, VoidEntry(db, p, now, recorder), p, db.entries[p].amount)
  {
    NoRefundNoAmount(db, p);
    assert EntryRowOk(db, p);
  }

  lemma AmountsPositive(db: Db)
    requires RowsOk(db)
    ensures forall k :: 0 <= k < |db.allocations| ==> 0 < db.allocations[k].amount
  {
    forall k | 0 <= k < |db.allocations| ensures 0 < db.allocations[k].amount { assert AllocationRowOk(db, k); }
  }

  lemma UnapplyRows(db: Db, e: nat, amount: nat, reversing: nat)
    requires RowsOk(db) && reversing < |db.entries| && db.entries[reversing].reverses == Some(e)
    ensures RowsOk(Restated(Unapplied(db, e, amount, reversing)))
  {
    var next := Restated(Unapplied(db, e, amount, reversing));
    AmountsPositive(db);
    forall i | 0 <= i < |next.charges| ensures ChargeRowOk(next, i) { assert ChargeRowOk(db, i); }
    forall i | 0 <= i < |next.entries| ensures EntryRowOk(next, i) { assert EntryRowOk(db, i); }
    forall i | 0 <= i < |next.enrollments| ensures EnrollmentRowOk(next, i) { assert EnrollmentRowOk(db, i); }
    var rows := db.allocations;
    OneSurvivor(rows, e, amount, 0);
    forall i | 0 <= i < |next.allocations| ensures AllocationRowOk(next, i) {
      if i < |rows| {
        assert AllocationRowOk(db, i);
        assert next.allocations[i] == StampedRow(rows, e, amount, reversing, i);
      } else {
        SurvivorRow(rows, e, amount, 0, 0);
        var j :| 0 <= j < |rows| && rows[j].entry == e && rows[j].charge == Survivors(rows, e, amount)[0].charge;
        assert AllocationRowOk(db, j);
      }
    }
  }

  /** What the entries' balances are after a payment is partly or wholly unapplied. */
  lemma UnapplyEntry(db: Db, p: nat, amount: nat, reversing: nat, k: nat)
    requires RowsOk(db) && IsPayment(db, p)
    ensures Applied(Unapplied(db, p, amount, reversing), k)
      == Applied(db, k) - (if k == p then Min(amount, Applied(db, p)) else 0)
    ensures Consumed(Unapplied(db, p, amount, reversing), k)
      == Consumed(db, k) - (if k == p then Min(amount, Applied(db, p)) else 0)
  {
    AmountsPositive(db);
    TakenBack(db, p, amount, reversing, OfEntry(k), k == p);
    forall a: Allocation | a.entry == p
      ensures ConsumedOf(db.entries, k)(a) == if k == p && a.reversedBy.None? then a.amount else 0
    {
      assert Consumes(db.entries, a) <==> a.reversedBy.None?;
    }
    TakenBack(db, p, amount, reversing, ConsumedOf(db.entries, k), k == p);
  }

  lemma ReversalEntry(db: Db, reversal: Entry, p: nat, amount: int, k: nat)
    requires Integrity(db) && Reversible(db, reversal, p, amount) && k < |db.entries|
    ensures var next := AfterReversal(db, reversal, p, amount);
      && Applied(next, k) == Applied(db, k) - (if k == p then Min(amount, Applied(db, p)) else 0)
      && Consumed(next, k) == Consumed(db, k) - (if k == p then Min(amount, Applied(db, p)) else 0)
      && Refunded(next, k) == Refunded(db, k) + (if k == p && reversal.kind == Refund then amount else 0)
      && CashedOut(next, k) == CashedOut(db, k) + (if k == p && reversal.cashOut then amount else 0)
      && (Voided(next.entries, k) <==> Voided(db.entries, k) || (k == p && reversal.kind == Void))
  {
    var entered := AddEntry(db, reversal);
    AddEntryRows(db, reversal);
    UnapplyEntry(entered, p, amount, reversal.id, k);
    EntrySums(db, reversal, k);
    VoidedAppend(db.entries, reversal, k);
  }

  /** A payment's own uses of its credit. */
  lemma PaymentConsumption(db: Db, p: nat)
    requires Integrity(db) && IsPayment(db, p)
    ensures Consumed(db, p) == Applied(db, p) && 0 <= Applied(db, p)
    ensures 0 <= CashedOut(db, p) <= Refunded(db, p)
  {
    forall i | 0 <= i < |db.allocations|
      ensures ConsumedOf(db.entries, p)(db.allocations[i]) == OfEntry(p)(db.allocations[i])
      ensures 0 <= OfEntry(p)(db.allocations[i])
    {
      assert AllocationRowOk(db, i);
      if db.allocations[i].entry == p {
        assert Consumes(db.entries, db.allocations[i]) <==> db.allocations[i].reversedBy.None?;
      }
    }
    SumAgree(db.allocations, ConsumedOf(db.entries, p), OfEntry(p));
    SumNonNegative(db.allocations, OfEntry(p));
    forall i | 0 <= i < |db.entries|
      ensures 0 <= CashOutOf(p)(db.entries[i]) <= RefundOf(p)(db.entries[i])
    {
      assert EntryRowOk(db, i);
    }
    SumMonotone(db.entries, CashOutOf(p), RefundOf(p));
    SumNonNegative(db.entries, CashOutOf(p));
  }

  lemma ReversalKeepsIntegrity(db: Db, reversal: Entry, p: nat, amount: int)
    requires Integrity(db) && Reversible(db, reversal, p, amount)
    ensures Integrity(AfterReversal(db, reversal, p, amount))
  {
    var entered := AddEntry(db, reversal);
    var next := AfterReversal(db, reversal, p, amount);
    AddEntryRows(db, reversal);
    UnapplyRows(entered, p, amount, reversal.id);
    AmountsPositive(entered);
    forall c | 0 <= c < |next.charges| ensures ChargeBalanced(next, c) {
      assert ChargeBalanced(db, c) && ChargeRowOk(db, c);
      ChargeAfterUnapply(entered, p, amount, reversal.id, c);
    }
    PaymentConsumption(db, p);
    forall k | 0 <= k < |next.entries| ensures EntryCovered(next, k) {
      if k < |db.entries| {
        assert EntryCovered(db, k);
        ReversalEntry(db, reversal, p, amount, k);
      } else {
        Untouched(db, k);
        EntrySums(db, reversal, k);
        VoidedAppend(db.entries, reversal, k);
        UnapplyEntry(entered, p, amount, reversal.id, k);
      }
    }
  }

  /** What a reversal moves: the part taken back is owed again, and the wallet gains it,
      loses what is paid out, or loses the whole credit of a voided payment. */
  lemma ReversalBalances(db: Db, reversal: Entry, p: nat, amount: int, student: int)
    requires Integrity(db) && Reversible(db, reversal, p, amount)
    ensures var next := AfterReversal(db, reversal, p, amount);
      var back := if student == db.entries[p].student then Min(amount, Applied(db, p)) else 0;
      && Outstanding(next, student) == Outstanding(db, student) + back
      && Wallet(next, student) == Wallet(db, student) + (
           if student != db.entries[p].student then 0
           else if reversal.kind == Void then -Available(db, p)
           else back - (if reversal.cashOut then amount else 0))
  {
    ReversalOutstanding(db, reversal, p, amount, student);
    ReversalWallet(db, reversal, p, amount, student);
  }

  lemma ReversalOutstanding(db: Db, reversal: Entry, p: nat, amount: int, student: int)
    requires Integrity(db) && Reversible(db, reversal, p, amount)
    ensures Outstanding(AfterReversal(db, reversal, p, amount), student)
         == Outstanding(db, student) + (if student == db.entries[p].student then Min(amount, Applied(db, p)) else 0)
  {
    var entered := AddEntry(db, reversal);
    var bare := Unapplied(entered, p, amount, reversal.id);
    var next := Restated(bare);
    AmountsPositive(db);
    var mine := student == db.entries[p].student;
    var v := PaidFor(db.charges, student, p, mine);
    forall i | 0 <= i < |db.allocations|
      ensures SettledFor(db.charges, student)(db.allocations[i]) == v(db.allocations[i])
    {
      ActiveIsLive(db, i);
    }
    SumAgree(db.allocations, SettledFor(db.charges, student), v);
    TakenBack(entered, p, amount, reversal.id, v, mine);
    AddEntryRows(db, reversal);
    UnapplyRows(entered, p, amount, reversal.id);
    ReversalKeepsIntegrity(db, reversal, p, amount);
    forall i | 0 <= i < |next.allocations|
      ensures SettledFor(next.charges, student)(next.allocations[i]) == v(next.allocations[i])
    {
      ActiveIsLive(next, i);
    }
    SumAgree(next.allocations, SettledFor(next.charges, student), v);
    forall i | 0 <= i < |db.charges| ensures BilledFor(student)(db.charges[i]) == BilledFor(student)(next.charges[i]) {}
    SumMapped(db.charges, next.charges, BilledFor(student), BilledFor(student));
  }

  /** Like `SettledFor`, but counting entry `p`'s rows by the payment's own student. */
  function PaidFor(charges: seq<Charge>, student: int, p: nat, mine: bool): Allocation -> int {
    (a: Allocation) =>
      if a.entry == p then (if mine && a.reversedBy.None? then a.amount else 0)
      else SettledFor(charges, student)(a)
  }

  /** An active allocation settles a charge that is not cancelled, of the entry's student. */
  lemma ActiveIsLive(db: Db, i: nat)
    requires Integrity(db) && i < |db.allocations|
    ensures AllocationRowOk(db, i)
    ensures db.allocations[i].reversedBy.None? ==> db.charges[db.allocations[i].charge].status != Cancelled
  {
    var a := db.allocations[i];
    assert AllocationRowOk(db, i);
    if a.reversedBy.None? {
      forall k | 0 <= k < |db.allocations|
        ensures 0 <= OnCharge(a.charge)(db.allocations[k])
      {
        assert AllocationRowOk(db, k);
      }
      SumMember(db.allocations, i, OnCharge(a.charge));
      assert ChargeBalanced(db, a.charge);
    }
  }

  lemma ReversalWallet(db: Db, reversal: Entry, p: nat, amount: int, student: int)
    requires Integrity(db) && Reversible(db, reversal, p, amount)
    ensures Wallet(AfterReversal(db, reversal, p, amount), student) == Wallet(db, student) + (
           if student != db.entries[p].student then 0
           else if reversal.kind == Void then -Available(db, p)
           else Min(amount, Applied(db, p)) - (if reversal.cashOut then amount else 0))
  {
    hide Sum, Stamped, Survivors, Balanced;
    var next := AfterReversal(db, reversal, p, amount);
    ReversalKeepsIntegrity(db, reversal, p, amount);
    WalletIsSumOfAvailable(db, student);
    WalletIsSumOfAvailable(next, student);
    var before, after := AvailableFor(db, student), AvailableFor(next, student);
    var change := if student != db.entries[p].student then 0
      else if reversal.kind == Void then Available(db, p)
      else (if reversal.cashOut then amount else 0) - Min(amount, Applied(db, p));
    var only := (e: Entry) => if e.id == p then change else 0;
    forall k | 0 <= k < |db.entries| ensures after(db.entries[k]) == before(db.entries[k]) - only(db.entries[k]) {
      assert EntryRowOk(db, k);
      ReversalEntry(db, reversal, p, amount, k);
      assert after(db.entries[k]) == if LiveCredit(next.entries, student, k) then Available(next, k) else 0;
      assert before(db.entries[k]) == if LiveCredit(db.entries, student, k) then Available(db, k) else 0;
    }
    SumLowered(db.entries, db.entries, before, after, only);
    SumAppend(db.entries, reversal, after);
    assert !LiveCredit(next.entries, student, reversal.id);
    forall k | 0 <= k < |db.entries| && k != p ensures only(db.entries[k]) == 0 { assert EntryRowOk(db, k); }
    SumSingle(db.entries, p, only);
    assert EntryRowOk(db, p);
  }

  // ---------------------------------------------------------------------------
  // Main results
  // ---------------------------------------------------------------------------

  lemma NewerFirst(rows: seq<Allocation>, e: nat, amount: nat, i: nat, j: nat)
    requires i < j < |rows| && forall k :: 0 <= k < |rows| ==> 0 < rows[k].amount
    requires Undone(rows, e, amount, i) && rows[j].entry == e && rows[j].reversedBy.None?
    ensures Undone(rows, e, amount, j)
  {
    assert rows[i + 1..] == rows[i + 1..j + 1] + rows[j + 1..];
    SumConcat(rows[i + 1..j + 1], rows[j + 1..], OfEntry(e));
    SumNonNegative(rows[i + 1..j + 1], OfEntry(e));
  }

  /** Rows go newest first, at most one survives in part, and together they give back
      exactly min(amount, applied). */
  lemma UnapplyNewestFirst(db: Db, e: nat, amount: nat, reversing: nat)
    requires RowsOk(db)
    ensures var next := Unapplied(db, e, amount, reversing);
      && Applied(next, e) == Applied(db, e) - Min(amount, Applied(db, e))
      && |next.allocations| <= |db.allocations| + 1
      && (|next.allocations| > |db.allocations| ==> amount < Applied(db, e))
      && (forall i, j :: 0 <= i < j < |db.allocations| && next.allocations[i] != db.allocations[i]
            && db.allocations[j].entry == e && db.allocations[j].reversedBy.None?
            ==> next.allocations[j].reversedBy == Some(reversing))
  {
    var rows, next := db.allocations, Unapplied(db, e, amount, reversing);
    AmountsPositive(db);
    TakenBack(db, e, amount, reversing, OfEntry(e), true);
    OneSurvivor(rows, e, amount, 0);
    assert rows[0..] == rows;
    forall i, j | 0 <= i < j < |rows| && next.allocations[i] != rows[i] && rows[j].entry == e &&
      rows[j].reversedBy.None?
      ensures next.allocations[j].reversedBy == Some(reversing)
    {
      assert next.allocations[i] == StampedRow(rows, e, amount, reversing, i);
      assert next.allocations[j] == StampedRow(rows, e, amount, reversing, j);
      NewerFirst(rows, e, amount, i, j);
    }
  }

  /** A void raises the student's position by the whole payment. */
  lemma VoidEffect(db: Db, p: nat, now: nat, recorder: int, student: int)
    requires Integrity(db) && VoidError(db, p, now).None?
    ensures var next := AfterVoid(db, p, now, recorder);
      var own := student == db.entries[p].student;
      && Integrity(next) && Applied(next, p) == 0 && Voided(next.entries, p)
      && Outstanding(next, student) == Outstanding(db, student) + (if own then Applied(db, p) else 0)
      && Wallet(next, student) == Wallet(db, student) - (if own then db.entries[p].amount - Applied(db, p) else 0)
      && Position(next, student) == Position(db, student) + (if own then db.entries[p].amount else 0)
  {
    var reversal, amount := VoidEntry(db, p, now, recorder), db.entries[p].amount;
    VoidIsReversible(db, p, now, recorder);
    ReversalKeepsIntegrity(db, reversal, p, amount);
    ReversalBalances(db, reversal, p, amount, student);
    ReversalEntry(db, reversal, p, amount, p);
    PaymentConsumption(db, p);
    assert EntryCovered(db, p);
  }

  /** A refund to the wallet moves no position; a cash refund raises it by what is paid
      out.  Either way the payment is unapplied by as much of it as was applied. */
  lemma RefundEffect(db: Db, p: nat, amount: int, toWallet: bool, now: nat, recorder: int, student: int)
    requires Integrity(db) && 0 < amount && RefundError(db, p, amount, now, true).None?
    ensures var next := AfterRefund(db, p, amount, toWallet, now, recorder);
      var own := student == db.entries[p].student;
      var back := if own then Min(amount, Applied(db, p)) else 0;
      && Integrity(next) && Refunded(next, p) == Refunded(db, p) + amount
      && Outstanding(next, student) == Outstanding(db, student) + back
      && Wallet(next, student) == Wallet(db, student) + back - (if own && !toWallet then amount else 0)
      && Position(next, student) == Position(db, student) + (if own && !toWallet then amount else 0)
  {
    var reversal := RefundEntry(db, p, amount, toWallet, now, recorder);
    ReversalKeepsIntegrity(db, reversal, p, amount);
    ReversalBalances(db, reversal, p, amount, student);
    ReversalEntry(db, reversal, p, amount, p);
  }

  lemma {:induction false} FreshEntryChargeParts(db: Db, e: nat, rows: seq<Allocation>, c: nat)
    requires RowsOk(db) && |db.entries| <= e
    requires forall k :: 0 <= k < |rows| ==> rows[k].entry == e
    ensures Sum(db.allocations + rows, OnChargeFrom(c, e)) == Sum(rows, OnCharge(c))
  {
    SumConcat(db.allocations, rows, OnChargeFrom(c, e));
    forall i | 0 <= i < |db.allocations|
      ensures OnChargeFrom(c, e)(db.allocations[i]) == 0
    {
      assert AllocationRowOk(db, i);
    }
    SumZero(db.allocations, OnChargeFrom(c, e));
    SumAgree(rows, OnChargeFrom(c, e), OnCharge(c));
  }

  /** The status a balanced charge must have. */
  lemma StatusDetermined(db: Db, next: Db, c: nat)
    requires Integrity(db) && Integrity(next) && c < |db.charges| && |next.charges| == |db.charges|
    requires next.charges[c].(status := Open) == db.charges[c].(status := Open)
    requires next.charges[c].status == Cancelled <==> db.charges[c].status == Cancelled
    requires ActiveOn(next, c) == ActiveOn(db, c)
    ensures next.charges[c] == db.charges[c]
  {
    assert ChargeBalanced(db, c) && ChargeBalanced(next, c);
  }

  /** A charge gets back from a void exactly what the payment had put on it. */
  lemma VoidRestoresCharge(db: Db, student: int, portions: seq<Portion>, amount: int, at: nat, recorder: int, now: nat,
                           voider: int, c: nat)
    requires Integrity(db) && Accepted(db, student, portions, amount) && c < |db.charges|
    requires VoidError(AfterPayment(db, student, portions, amount, at, recorder), |db.entries|, now).None?
    ensures ActiveOn(AfterVoid(AfterPayment(db, student, portions, amount, at, recorder), |db.entries|, now, voider), c)
      == ActiveOn(db, c)
  {
    hide Stamped, Survivors, RowsForPayment, Balanced;
    var e := |db.entries|;
    var entered := AddEntry(db, PaymentEntry(db, student, amount, at, recorder));
    var rows := RowsForPayment(entered, e, portions);
    var paid := AfterPayment(db, student, portions, amount, at, recorder);
    PaymentEffect(db, student, portions, amount, at, recorder, student);
    PaymentSpendable(db, student, portions, amount, at, recorder);
    SpendSums(entered, rows);
    AmountsPositive(paid);
    ChargeAfterUnapply(AddEntry(paid, VoidEntry(paid, e, now, voider)), e, amount, |paid.entries|, c);
    FreshEntryChargeParts(db, e, rows, c);
  }

  /** A payment just recorded can be voided exactly when both dates are in open months. */
  lemma FreshPaymentIsVoidable(db: Db, student: int, portions: seq<Portion>, amount: int, at: nat, recorder: int,
                               now: nat)
    requires RowsOk(db)
    ensures VoidError(AfterPayment(db, student, portions, amount, at, recorder), |db.entries|, now).None? <==>
      !IsClosed(db, PeriodKey(at)) && !IsClosed(db, PeriodKey(now))
  {
    hide RowsForPayment;
    var next := AfterPayment(db, student, portions, amount, at, recorder);
    var e := PaymentEntry(db, student, amount, at, recorder);
    assert next.entries == db.entries + [e];
    forall k | 0 <= k < |next.entries| && next.entries[k].kind in {Void, Refund}
      ensures next.entries[k].reverses != Some(|db.entries|)
    {
      assert EntryRowOk(db, k);
    }
  }

  /** Voiding a payment straight away undoes it: every charge, every student's debt and
      every wallet is what it was before the payment. */
  lemma VoidUndoesPayment(db: Db, student: int, portions: seq<Portion>, amount: int, at: nat, recorder: int, now: nat,
                          voider: int, other: int)
    requires Integrity(db) && Accepted(db, student, portions, amount)
    requires !IsClosed(db, PeriodKey(at)) && !IsClosed(db, PeriodKey(now))
    ensures VoidError(AfterPayment(db, student, portions, amount, at, recorder), |db.entries|, now).None?
    ensures var paid := AfterPayment(db, student, portions, amount, at, recorder);
      var next := AfterVoid(paid, |db.entries|, now, voider);
      && next.charges == db.charges
      && (forall c :: 0 <= c < |db.charges| ==> ActiveOn(next, c) == ActiveOn(db, c))
      && Outstanding(next, other) == Outstanding(db, other) && Wallet(next, other) == Wallet(db, other)
  {
    hide Stamped, Survivors, RowsForPayment, Balanced;
    var paid := AfterPayment(db, student, portions, amount, at, recorder);
    var next := AfterVoid(paid, |db.entries|, now, voider);
    PaymentEffect(db, student, portions, amount, at, recorder, other);
    FreshPaymentIsVoidable(db, student, portions, amount, at, recorder, now);
    VoidEffect(paid, |db.entries|, now, voider, other);
    forall c | 0 <= c < |db.charges| ensures ActiveOn(next, c) == ActiveOn(db, c) && next.charges[c] == db.charges[c] {
      VoidRestoresCharge(db, student, portions, amount, at, recorder, now, voider, c);
      StatusDetermined(db, next, c);
    }
  }

  // ---------------------------------------------------------------------------
  // The loop of `_reverse_allocations`
  // ---------------------------------------------------------------------------

  /** What is left to take back when the rows from `i` on have been visited. */
  function Left(rows: seq<Allocation>, source: nat, amount: nat, i: nat): int
    requires i <= |rows|
  {
    Max(0, amount - Sum(rows[i..], OfEntry(source)))
  }

  /** The rows from `i` on are as `Unapplied` leaves them, the older ones untouched. */
  predicate HalfDone(current: seq<Allocation>, rows: seq<Allocation>, source: nat, amount: nat, reversing: nat, i: nat)
    requires i <= |rows|
  {
    && current == rows[..i] + Stamped(rows, source, amount, reversing)[i..] + SurvivorsFrom(rows, source, amount, i)
    && (SurvivorsFrom(rows, source, amount, i) != [] ==> Left(rows, source, amount, i) == 0)
  }

  /** Every row from `i` on that was reversed has its charge among the affected ones. */
  ghost predicate Noted(rows: seq<Allocation>, source: nat, amount: nat, affected: seq<nat>, i: nat) {
    forall j :: i <= j < |rows| && Undone(rows, source, amount, j) ==> rows[j].charge in affected
  }

  lemma NoteOneRow(rows: seq<Allocation>, source: nat, amount: nat, affected: seq<nat>, i: nat)
    requires i < |rows| && Noted(rows, source, amount, affected, i + 1)
    ensures Noted(rows, source, amount, if Undone(rows, source, amount, i) then affected + [rows[i].charge]
      else affected, i)
  {
  }

  lemma NothingNoted(rows: seq<Allocation>, source: nat, amount: nat)
    ensures Noted(rows, source, amount, [], |rows|)
  {
  }

  lemma AllNoted(rows: seq<Allocation>, source: nat, amount: nat, affected: seq<nat>, i: nat)
    requires Noted(rows, source, amount, affected, i) && forall j ::
      0 <= j < i && j < |rows| ==> !Undone(rows, source, amount, j)
    ensures forall j :: 0 <= j < |rows| && Undone(rows, source, amount, j) ==> rows[j].charge in affected
  {
  }

  lemma NothingDone(rows: seq<Allocation>, source: nat, amount: nat, reversing: nat)
    ensures HalfDone(rows, rows, source, amount, reversing, |rows|) && Left(rows, source, amount, |rows|) == amount
  {
    assert rows[|rows|..] == [];
  }

  lemma DoOneRow(current: seq<Allocation>, rows: seq<Allocation>, source: nat, amount: nat, reversing: nat, i: nat)
    requires i < |rows| && forall k :: 0 <= k < |rows| ==> 0 < rows[k].amount
    requires HalfDone(current, rows, source, amount, reversing, i + 1) && 0 < Left(rows, source, amount, i + 1)
    ensures |current| == |rows| && current[i] == rows[i]
    ensures var left, a, mine := Left(rows, source, amount, i + 1), rows[i], rows[i].entry == source &&
      rows[i].reversedBy.None?;
      var stamped := current[i := a.(reversedBy := Some(reversing))];
      && (Undone(rows, source, amount, i) <==> mine)
      && Left(rows, source, amount, i) == (if !mine then left else if a.amount > left then 0 else left - a.amount)
      && HalfDone(
           if !mine then current
           else if a.amount > left then stamped + [Allocation(|stamped|, source, a.charge, a.amount - left, None)]
           else stamped, rows, source, amount, reversing, i)
  {
    var all := Stamped(rows, source, amount, reversing);
    SuffixStep(rows, i, OfEntry(source));
    SuffixNonNegative(rows, source, i + 1);
    assert all[i..] == [all[i]] + all[i + 1..];
    assert rows[..i + 1] == rows[..i] + [rows[i]];
  }

  lemma AllDone(current: seq<Allocation>, rows: seq<Allocation>, source: nat, amount: nat, reversing: nat, i: nat)
    requires i <= |rows| && forall k :: 0 <= k < |rows| ==> 0 < rows[k].amount
    requires HalfDone(current, rows, source, amount, reversing, i)
    requires i == 0 || Left(rows, source, amount, i) <= 0
    ensures current == Stamped(rows, source, amount, reversing) + Survivors(rows, source, amount)
    ensures forall j :: 0 <= j < i ==> !Undone(rows, source, amount, j)
  {
    if 0 < i { OlderRowsKept(rows, source, amount, reversing, i); }
    var all := Stamped(rows, source, amount, reversing);
    assert rows[..i] == all[..i];
    assert all == all[..i] + all[i..];
  }
}
