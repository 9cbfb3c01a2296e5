/**
 The two ways the ledger grows: a new entry, and new allocations of funding entries to
 charges, followed by `_recompute_charge_status`.
 */
module Posting {
  import opened Wrappers
  import opened Sums
  import opened Tables
  import opened Balances

  function AddEntry(db: Db, e: Entry): Db {
    db.(entries := db.entries + [e])
  }

  function AddAllocations(db: Db, rows: seq<Allocation>): Db {
    db.(allocations := db.allocations + rows)
  }

  /** The status `_recompute_charge_status` gives a charge. */
  function StatusFor(db: Db, c: Charge): ChargeStatus {
    if c.status == Cancelled then Cancelled
    else if ActiveOn(db, c.id) >= c.amount then Settled
    else Open
  }

  /** Every status recomputed. */
  function Restated(db: Db): Db {
    db.(charges := seq(|db.charges|, i requires 0 <= i < |db.charges| =>
      db.charges[i].(status := StatusFor(db, db.charges[i]))))
  }

  function Spend(db: Db, rows: seq<Allocation>): Db {
    Restated(AddAllocations(db, rows))
  }

  /** What settles a charge is in the allocations alone. */
  lemma SameActive(db: Db, next: Db, c: nat)
    requires next.allocations == db.allocations
    ensures ActiveOn(next, c) == ActiveOn(db, c)
  {
  }

  // ---------------------------------------------------------------------------
  // A new entry
  // ---------------------------------------------------------------------------

  lemma VoidedAppend(entries: seq<Entry>, e: Entry, k: nat)
    ensures Voided(entries + [e], k) <==> Voided(entries, k) || (e.kind == Void && e.reverses == Some(k))
  {
    var more := entries + [e];
    if Voided(entries, k) {
      var i :| 0 <= i < |entries| && entries[i].kind == Void && entries[i].reverses == Some(k);
      assert more[i] == entries[i];
    }
    if e.kind == Void && e.reverses == Some(k) {
      assert more[|entries|] == e;
    }
  }

  /** A new entry changes nothing the old allocations say. */
  lemma EntrySums(db: Db, e: Entry, k: nat)
    requires RowsOk(db)
    ensures Refunded(AddEntry(db, e), k) == Refunded(db, k) + RefundOf(k)(e)
    ensures CashedOut(AddEntry(db, e), k) == CashedOut(db, k) + CashOutOf(k)(e)
    ensures Consumed(AddEntry(db, e), k) == Consumed(db, k)
  {
    SumAppend(db.entries, e, RefundOf(k));
    SumAppend(db.entries, e, CashOutOf(k));
    var more := db.entries + [e];
    forall i | 0 <= i < |db.allocations|
      ensures ConsumedOf(more, k)(db.allocations[i]) == ConsumedOf(db.entries, k)(db.allocations[i])
    {
      assert AllocationRowOk(db, i);
      assert Consumes(more, db.allocations[i]) == Consumes(db.entries, db.allocations[i]);
    }
    SumAgree(db.allocations, ConsumedOf(more, k), ConsumedOf(db.entries, k));
  }

  /** Nothing is drawn from an entry that no row names. */
  lemma Untouched(db: Db, k: nat)
    requires RowsOk(db) && |db.entries| <= k
    ensures Consumed(db, k) == Applied(db, k) == 0 && Refunded(db, k) == CashedOut(db, k) == 0
    ensures !Voided(db.entries, k)
  {
    forall i | 0 <= i < |db.allocations|
      ensures ConsumedOf(db.entries, k)(db.allocations[i]) == OfEntry(k)(db.allocations[i]) == 0
    {
      assert AllocationRowOk(db, i);
    }
    SumZero(db.allocations, ConsumedOf(db.entries, k));
    SumZero(db.allocations, OfEntry(k));
    forall i | 0 <= i < |db.entries|
      ensures RefundOf(k)(db.entries[i]) == CashOutOf(k)(db.entries[i]) == 0
      ensures !(db.entries[i].kind == Void && db.entries[i].reverses == Some(k))
    {
      assert EntryRowOk(db, i);
    }
    SumZero(db.entries, RefundOf(k));
    SumZero(db.entries, CashOutOf(k));
  }

  predicate FundingEntry(db: Db, e: Entry) {
    e.id == |db.entries| && 0 < e.amount && Funds(e.kind) && e.reverses.None? && !e.cashOut
  }

  lemma AddEntryRows(db: Db, e: Entry)
    requires RowsOk(db) && EntryRowOk(AddEntry(db, e), |db.entries|)
    ensures RowsOk(AddEntry(db, e))
  {
    var next := AddEntry(db, e);
    forall i | 0 <= i < |next.entries| ensures EntryRowOk(next, i) {
      if i < |db.entries| { assert EntryRowOk(db, i); }
    }
    forall i | 0 <= i < |next.allocations| ensures AllocationRowOk(next, i) { assert AllocationRowOk(db, i); }
    forall i | 0 <= i < |next.charges| ensures ChargeRowOk(next, i) { assert ChargeRowOk(db, i); }
    forall i | 0 <= i < |next.enrollments| ensures EnrollmentRowOk(next, i) { assert EnrollmentRowOk(db, i); }
  }

  lemma FundingEntryKeepsIntegrity(db: Db, e: Entry)
    requires Integrity(db) && FundingEntry(db, e)
    ensures Integrity(AddEntry(db, e))
    ensures Available(AddEntry(db, e), |db.entries|) == e.amount
    ensures Applied(AddEntry(db, e), |db.entries|) == 0
    ensures !Voided(AddEntry(db, e).entries, |db.entries|)
  {
    var next := AddEntry(db, e);
    AddEntryRows(db, e);
    forall c | 0 <= c < |next.charges| ensures ChargeBalanced(next, c) { assert ChargeBalanced(db, c); }
    Untouched(db, |db.entries|);
    forall k | 0 <= k < |next.entries| ensures EntryCovered(next, k) {
      EntrySums(db, e, k);
      VoidedAppend(db.entries, e, k);
      if k < |db.entries| { assert EntryCovered(db, k); }
    }
    EntrySums(db, e, |db.entries|);
    VoidedAppend(db.entries, e, |db.entries|);
  }

  /** The sums a student's balances are made of, after a new entry that voids nothing. */
  lemma EntryCredit(db: Db, e: Entry, student: int)
    requires RowsOk(db) && EntryRowOk(AddEntry(db, e), |db.entries|) && e.kind != Void
    ensures NetCredit(AddEntry(db, e), student) == NetCredit(db, student)
      + (if e.student == student && IsCredit(e) then e.amount else 0)
      - CashOutFor(student)(e)
  {
    var more := db.entries + [e];
    Untouched(db, |db.entries|);
    forall k: nat ensures Voided(more, k) == Voided(db.entries, k) { VoidedAppend(db.entries, e, k); }
    SumAppend(db.entries, e, CreditFor(more, student));
    forall i | 0 <= i < |db.entries|
      ensures CreditFor(more, student)(db.entries[i]) == CreditFor(db.entries, student)(db.entries[i])
    {
      assert Voided(more, db.entries[i].id) == Voided(db.entries, db.entries[i].id);
    }
    SumAgree(db.entries, CreditFor(more, student), CreditFor(db.entries, student));
    assert Voided(more, e.id) == Voided(db.entries, e.id);
    assert CreditFor(more, student)(e) == (if e.student == student && IsCredit(e) then e.amount else 0);
    SumAppend(db.entries, e, CashOutFor(student));
    forall i | 0 <= i < |db.allocations|
      ensures SpentFor(more, student)(db.allocations[i]) == SpentFor(db.entries, student)(db.allocations[i])
    {
      var a := db.allocations[i];
      assert AllocationRowOk(db, i);
      assert LiveCredit(more, student, a.entry) == LiveCredit(db.entries, student, a.entry);
      assert Consumes(more, a) == Consumes(db.entries, a);
    }
    SumAgree(db.allocations, SpentFor(more, student), SpentFor(db.entries, student));
  }

  /** New credit lowers the student's position by its amount; a discount entry alone
      changes no balance. */
  lemma FundingEntryPosition(db: Db, e: Entry, student: int)
    requires Integrity(db) && FundingEntry(db, e)
    ensures Outstanding(AddEntry(db, e), student) == Outstanding(db, student)
    ensures Wallet(AddEntry(db, e), student)
      == Wallet(db, student) + (if e.student == student && IsCredit(e) then e.amount else 0)
  {
    FundingEntryKeepsIntegrity(db, e);
    EntryCredit(db, e, student);
    WalletIsSumOfAvailable(db, student);
    WalletIsSumOfAvailable(AddEntry(db, e), student);
  }

  // ---------------------------------------------------------------------------
  // New allocations
  // ---------------------------------------------------------------------------

  /** Row `k` of a batch is a well-formed active allocation. */
  predicate NewRowOk(db: Db, rows: seq<Allocation>, k: nat)
    requires k < |rows|
  {
    var a := rows[k];
    && a.id == |db.allocations| + k && 0 < a.amount && a.reversedBy.None?
    && a.entry < |db.entries| && Funds(db.entries[a.entry].kind)
    && a.charge < |db.charges| && db.charges[a.charge].student == db.entries[a.entry].student
  }

  predicate ChargeTakes(db: Db, rows: seq<Allocation>, c: nat)
    requires c < |db.charges|
  {
    Sum(rows, OnCharge(c)) <= Remaining(db, c) && (db.charges[c].status == Cancelled ==> Sum(rows, OnCharge(c)) == 0)
  }

  predicate EntryGives(db: Db, rows: seq<Allocation>, e: nat)
    requires e < |db.entries|
  {
    Sum(rows, OfEntry(e)) <= Available(db, e) && (Voided(db.entries, e) ==> Sum(rows, OfEntry(e)) == 0)
  }

  /** A batch no charge and no entry is too small for. */
  ghost predicate Spendable(db: Db, rows: seq<Allocation>) {
    && (forall k :: 0 <= k < |rows| ==> NewRowOk(db, rows, k))
    && (forall c :: 0 <= c < |db.charges| ==> ChargeTakes(db, rows, c))
    && (forall e :: 0 <= e < |db.entries| ==> EntryGives(db, rows, e))
  }

  lemma SpendSums(db: Db, rows: seq<Allocation>)
    requires forall k :: 0 <= k < |rows| ==> NewRowOk(db, rows, k)
    ensures forall c: nat :: ActiveOn(Spend(db, rows), c) == ActiveOn(db, c) + Sum(rows, OnCharge(c))
    ensures forall c: nat :: 0 <= Sum(rows, OnCharge(c))
    ensures forall e: nat :: Applied(Spend(db, rows), e) == Applied(db, e) + Sum(rows, OfEntry(e))
    ensures forall e: nat :: Consumed(Spend(db, rows), e) == Consumed(db, e) + Sum(rows, OfEntry(e))
    ensures forall e: nat :: 0 <= Sum(rows, OfEntry(e))
  {
    forall c: nat
      ensures ActiveOn(Spend(db, rows), c) == ActiveOn(db, c) + Sum(rows, OnCharge(c))
      ensures 0 <= Sum(rows, OnCharge(c))
    {
      SumConcat(db.allocations, rows, OnCharge(c));
      assert forall k :: 0 <= k < |rows| ==> NewRowOk(db, rows, k) ==> 0 <= OnCharge(c)(rows[k]);
      SumNonNegative(rows, OnCharge(c));
    }
    forall e: nat
      ensures Applied(Spend(db, rows), e) == Applied(db, e) + Sum(rows, OfEntry(e))
      ensures Consumed(Spend(db, rows), e) == Consumed(db, e) + Sum(rows, OfEntry(e))
      ensures 0 <= Sum(rows, OfEntry(e))
    {
      SumConcat(db.allocations, rows, OfEntry(e));
      SumConcat(db.allocations, rows, ConsumedOf(db.entries, e));
      forall k | 0 <= k < |rows|
        ensures ConsumedOf(db.entries, e)(rows[k]) == OfEntry(e)(rows[k]) && 0 <= OfEntry(e)(rows[k])
      {
        assert NewRowOk(db, rows, k);
        assert Consumes(db.entries, rows[k]);
      }
      SumAgree(rows, ConsumedOf(db.entries, e), OfEntry(e));
      SumNonNegative(rows, OfEntry(e));
    }
  }

  lemma SpendRows(db: Db, rows: seq<Allocation>)
    requires RowsOk(db)
    requires forall k :: 0 <= k < |rows| ==> NewRowOk(db, rows, k)
    ensures RowsOk(Spend(db, rows))
  {
    var next := Spend(db, rows);
    forall i | 0 <= i < |next.charges| ensures ChargeRowOk(next, i) { assert ChargeRowOk(db, i); }
    forall i | 0 <= i < |next.entries| ensures EntryRowOk(next, i) { assert EntryRowOk(db, i); }
    forall i | 0 <= i < |next.enrollments| ensures EnrollmentRowOk(next, i) { assert EnrollmentRowOk(db, i); }
    forall i | 0 <= i < |next.allocations| ensures AllocationRowOk(next, i) {
      if i < |db.allocations| { assert AllocationRowOk(db, i); }
      else { assert NewRowOk(db, rows, i - |db.allocations|); }
    }
  }

  lemma SpendKeepsIntegrity(db: Db, rows: seq<Allocation>)
    requires Integrity(db) && Spendable(db, rows)
    ensures Integrity(Spend(db, rows))
  {
    var next := Spend(db, rows);
    SpendRows(db, rows);
    SpendSums(db, rows);
    forall c | 0 <= c < |next.charges| ensures ChargeBalanced(next, c) {
      assert ChargeBalanced(db, c) && ChargeTakes(db, rows, c) && ChargeRowOk(db, c);
    }
    forall e | 0 <= e < |next.entries| ensures EntryCovered(next, e) {
      assert EntryCovered(db, e) && EntryGives(db, rows, e);
    }
  }

  /** The part of a batch that discounts fund. */
  function DiscountFunded(entries: seq<Entry>, student: int): Allocation -> int {
    (a: Allocation) => if KindIs(entries, a.entry, Discount) && entries[a.entry].student == student then a.amount else 0
  }

  /** Applying credit moves a balance from the wallet to the charges; only what a
      discount funds lowers the student's position. */
  lemma SpendPosition(db: Db, rows: seq<Allocation>, student: int)
    requires Integrity(db) && Spendable(db, rows)
    ensures Position(Spend(db, rows), student) == Position(db, student) - Sum(rows, DiscountFunded(db.entries, student))
    ensures Wallet(Spend(db, rows), student) == Wallet(db, student) - Sum(rows, SpentFor(db.entries, student))
  {
    hide Sum, Consumed, CashedOut, Balanced;
    var next := Spend(db, rows);
    SpendKeepsIntegrity(db, rows);
    WalletIsSumOfAvailable(db, student);
    WalletIsSumOfAvailable(next, student);
    SumConcat(db.allocations, rows, SpentFor(db.entries, student));
    SumConcat(db.allocations, rows, SettledFor(db.charges, student));
    var settled, spent, discount := SettledFor(db.charges, student), SpentFor(db.entries, student),
      DiscountFunded(db.entries, student);
    forall i | 0 <= i < |next.allocations|
      ensures SettledFor(next.charges, student)(next.allocations[i]) == settled(next.allocations[i])
    {
    }
    SumAgree(next.allocations, SettledFor(next.charges, student), settled);
    forall i | 0 <= i < |db.charges| ensures BilledFor(student)(db.charges[i]) == BilledFor(student)(next.charges[i]) {}
    SumMapped(db.charges, next.charges, BilledFor(student), BilledFor(student));
    forall k | 0 <= k < |rows| ensures settled(rows[k]) == spent(rows[k]) + discount(rows[k]) {
      SpendableRow(db, rows, k);
      var a := rows[k];
      assert Consumes(db.entries, a);
      assert LiveCredit(db.entries, student, a.entry)
        == (db.entries[a.entry].student == student && IsCredit(db.entries[a.entry]));
      assert KindIs(db.entries, a.entry, Discount) == (db.entries[a.entry].kind == Discount);
    }
    SumPlus(rows, spent, discount, settled);
  }

  /** A row of a spendable batch touches no voided entry and no cancelled charge. */
  lemma SpendableRow(db: Db, rows: seq<Allocation>, k: nat)
    requires Spendable(db, rows) && k < |rows|
    ensures NewRowOk(db, rows, k)
    ensures !Voided(db.entries, rows[k].entry) && db.charges[rows[k].charge].status != Cancelled
  {
    var a := rows[k];
    assert NewRowOk(db, rows, k);
    forall i | 0 <= i < |rows| ensures 0 <= OnCharge(a.charge)(rows[i]) && 0 <= OfEntry(a.entry)(rows[i]) {
      assert NewRowOk(db, rows, i);
    }
    SumMember(rows, k, OnCharge(a.charge));
    SumMember(rows, k, OfEntry(a.entry));
    assert ChargeTakes(db, rows, a.charge) && EntryGives(db, rows, a.entry);
  }

  // ---------------------------------------------------------------------------
  // Recomputing only what was touched
  // ---------------------------------------------------------------------------

  function RestatedAt(db: Db, ids: seq<nat>): Db {
    db.(charges := seq(|db.charges|, i requires 0 <= i < |db.charges| =>
      if i in ids then db.charges[i].(status := StatusFor(db, db.charges[i])) else db.charges[i]))
  }

  /** Charges whose allocations did not change already have the right status, so
      recomputing the touched ones recomputes them all. */
  lemma TouchedIsEnough(db: Db, next: Db, ids: seq<nat>)
    requires Integrity(db) && next.charges == db.charges
    requires forall c :: 0 <= c < |db.charges| && c !in ids ==> ActiveOn(next, c) == ActiveOn(db, c)
    ensures RestatedAt(next, ids) == Restated(next)
  {
    forall c | 0 <= c < |db.charges| && c !in ids ensures StatusFor(next, next.charges[c]) == next.charges[c].status {
      assert ChargeRowOk(db, c) && ChargeBalanced(db, c);
    }
  }

  /** New rows leave the charges they do not name alone. */
  lemma UnnamedCharges(db: Db, rows: seq<Allocation>, ids: seq<nat>)
    requires forall k :: 0 <= k < |rows| ==> rows[k].charge in ids
    ensures forall c: nat :: c !in ids ==> ActiveOn(AddAllocations(db, rows), c) == ActiveOn(db, c)
  {
    forall c: nat | c !in ids ensures ActiveOn(AddAllocations(db, rows), c) == ActiveOn(db, c) {
      SumConcat(db.allocations, rows, OnCharge(c));
      SumZero(rows, OnCharge(c));
    }
  }

  lemma SameRemaining(db: Db, e: Entry, c: nat)
    requires c < |db.charges|
    ensures Remaining(AddEntry(db, e), c) == Remaining(db, c)
  {
  }

  lemma NothingSpent(db: Db)
    requires Integrity(db)
    ensures Spend(db, []) == db
  {
    assert db.allocations + [] == db.allocations;
    assert AddAllocations(db, []) == db;
    forall c | 0 <= c < |db.charges| ensures StatusFor(db, db.charges[c]) == db.charges[c].status {
      assert ChargeRowOk(db, c) && ChargeBalanced(db, c);
    }
    assert Restated(db).charges == db.charges;
  }

  /** Rows of other entries do not change what an entry has available. */
  lemma SameAvailable(db: Db, rows: seq<Allocation>, e: nat)
    requires e < |db.entries| && forall k :: 0 <= k < |rows| ==> rows[k].entry != e
    ensures Available(AddAllocations(db, rows), e) == Available(db, e)
  {
    SumConcat(db.allocations, rows, ConsumedOf(db.entries, e));
    SumZero(rows, ConsumedOf(db.entries, e));
  }
}
