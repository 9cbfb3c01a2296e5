/**
 Student balances, computed by the source with set-based sums over joined tables, are
 the sums of the balances of the student's own entries and charges.
 */
module Balances {
  import opened Sums
  import opened Tables

  /** What entry `e` still has available, counted for the student it belongs to. */
  function AvailableFor(db: Db, student: int): Entry -> int {
    (e: Entry) => if LiveCredit(db.entries, student, e.id) then Available(db, e.id) else 0
  }

  /** What charge `c` still needs, counted for the student it belongs to. */
  function RemainingFor(db: Db, student: int): Charge -> int {
    (c: Charge) => if c.student == student && c.status != Cancelled then c.amount - ActiveOn(db, c.id) else 0
  }

  function SpentPart(entries: seq<Entry>, student: int): (Entry, Allocation) -> int {
    (e: Entry, a: Allocation) => if LiveCredit(entries, student, e.id) then ConsumedOf(entries, e.id)(a) else 0
  }

  function CashOutPart(entries: seq<Entry>, student: int): (Entry, Entry) -> int {
    (e: Entry, r: Entry) => if LiveCredit(entries, student, e.id) then CashOutOf(e.id)(r) else 0
  }

  function SettledPart(student: int): (Charge, Allocation) -> int {
    (c: Charge, a: Allocation) => if c.student == student && c.status != Cancelled then OnCharge(c.id)(a) else 0
  }

  lemma IntegrityHasRows(db: Db)
    requires Integrity(db)
    ensures RowsOk(db)
  {
  }

  lemma SpentByEntry(db: Db, student: int)
    requires RowsOk(db)
    ensures Sum(db.entries, RowTotals(SpentPart(db.entries, student), db.allocations))
         == Sum(db.allocations, SpentFor(db.entries, student))
  {
    var part, total := SpentPart(db.entries, student), SpentFor(db.entries, student);
    forall j | 0 <= j < |db.allocations|
      ensures Sum(db.entries, Column(part, db.allocations[j])) == total(db.allocations[j])
    {
      var a := db.allocations[j];
      assert AllocationRowOk(db, j);
      forall i | 0 <= i < |db.entries| && i != a.entry
        ensures Column(part, a)(db.entries[i]) == 0
      {
        assert EntryRowOk(db, i);
        assert part(db.entries[i], a)
          == (if LiveCredit(db.entries, student, i) then ConsumedOf(db.entries, i)(a) else 0);
      }
      SumSingle(db.entries, a.entry, Column(part, a));
      assert EntryRowOk(db, a.entry);
      assert part(db.entries[a.entry], a)
        == (if LiveCredit(db.entries, student, a.entry) then ConsumedOf(db.entries, a.entry)(a) else 0);
    }
    SumGrouped(db.entries, db.allocations, part, total);
  }

  lemma CashOutByEntry(db: Db, student: int)
    requires Integrity(db)
    ensures Sum(db.entries, RowTotals(CashOutPart(db.entries, student), db.entries))
         == Sum(db.entries, CashOutFor(student))
  {
    var part, total := CashOutPart(db.entries, student), CashOutFor(student);
    forall j | 0 <= j < |db.entries|
      ensures Sum(db.entries, Column(part, db.entries[j])) == total(db.entries[j])
    {
      var r := db.entries[j];
      assert EntryRowOk(db, j);
      if r.kind == Refund {
        var p := r.reverses.value;
        RefundedIsNotVoided(db, j);
        forall i | 0 <= i < |db.entries| && i != p
          ensures Column(part, r)(db.entries[i]) == 0
        {
          assert EntryRowOk(db, i);
          assert part(db.entries[i], r) == (if LiveCredit(db.entries, student, i) then CashOutOf(i)(r) else 0);
        }
        SumSingle(db.entries, p, Column(part, r));
        assert EntryRowOk(db, p);
        assert part(db.entries[p], r) == (if LiveCredit(db.entries, student, p) then CashOutOf(p)(r) else 0);
      } else {
        forall i | 0 <= i < |db.entries| ensures Column(part, r)(db.entries[i]) == 0 {
          assert EntryRowOk(db, i);
          assert part(db.entries[i], r) == (if LiveCredit(db.entries, student, i) then CashOutOf(i)(r) else 0);
        }
        SumZero(db.entries, Column(part, r));
      }
    }
    SumGrouped(db.entries, db.entries, part, total);
  }

  lemma RefundedIsNotVoided(db: Db, j: nat)
    requires Integrity(db) && j < |db.entries| && db.entries[j].kind == Refund
    ensures db.entries[j].reverses.Some? && !Voided(db.entries, db.entries[j].reverses.value)
  {
    assert EntryRowOk(db, j);
    var p := db.entries[j].reverses.value;
    forall i | 0 <= i < |db.entries| ensures 0 <= RefundOf(p)(db.entries[i]) { assert EntryRowOk(db, i); }
    SumMember(db.entries, j, RefundOf(p));
    assert EntryCovered(db, p);
  }

  lemma SettledByCharge(db: Db, student: int)
    requires RowsOk(db)
    ensures Sum(db.charges, RowTotals(SettledPart(student), db.allocations))
         == Sum(db.allocations, SettledFor(db.charges, student))
  {
    var part, total := SettledPart(student), SettledFor(db.charges, student);
    forall j | 0 <= j < |db.allocations|
      ensures Sum(db.charges, Column(part, db.allocations[j])) == total(db.allocations[j])
    {
      var a := db.allocations[j];
      assert AllocationRowOk(db, j);
      forall i | 0 <= i < |db.charges| && i != a.charge
        ensures Column(part, a)(db.charges[i]) == 0
      {
        assert ChargeRowOk(db, i);
        assert part(db.charges[i], a)
          == (if db.charges[i].student == student && db.charges[i].status != Cancelled then OnCharge(i)(a) else 0);
      }
      SumSingle(db.charges, a.charge, Column(part, a));
      assert ChargeRowOk(db, a.charge);
      assert part(db.charges[a.charge], a)
        == (if db.charges[a.charge].student == student &&
        db.charges[a.charge].status != Cancelled then OnCharge(a.charge)(a) else 0);
    }
    SumGrouped(db.charges, db.allocations, part, total);
  }

  /** The wallet is what is left on the student's own credit entries, and the clamp in
      `get_unallocated_credit` never changes it. */
  lemma WalletIsSumOfAvailable(db: Db, student: int)
    requires Integrity(db)
    ensures Wallet(db, student) == NetCredit(db, student) == Sum(db.entries, AvailableFor(db, student))
  {
    var credit, spent, cash := CreditFor(db.entries, student),
      RowTotals(SpentPart(db.entries, student), db.allocations),
      RowTotals(CashOutPart(db.entries, student), db.entries);
    var available := AvailableFor(db, student);
    forall i | 0 <= i < |db.entries|
      ensures available(db.entries[i]) == credit(db.entries[i]) - spent(db.entries[i]) - cash(db.entries[i])
      ensures 0 <= available(db.entries[i])
    {
      var e := db.entries[i];
      assert EntryRowOk(db, i) && EntryCovered(db, i);
      if LiveCredit(db.entries, student, i) {
        SumAgree(db.allocations, Row(SpentPart(db.entries, student), e), ConsumedOf(db.entries, i));
        SumAgree(db.entries, Row(CashOutPart(db.entries, student), e), CashOutOf(i));
      } else {
        SumZero(db.allocations, Row(SpentPart(db.entries, student), e));
        SumZero(db.entries, Row(CashOutPart(db.entries, student), e));
      }
    }
    SumDifference(db.entries, credit, spent, cash, available);
    SpentByEntry(db, student);
    CashOutByEntry(db, student);
    SumNonNegative(db.entries, available);
  }

  lemma SumDifference(xs: seq<Entry>, f: Entry -> int, g: Entry -> int, h: Entry -> int, r: Entry -> int)
    requires forall i :: 0 <= i < |xs| ==> r(xs[i]) == f(xs[i]) - g(xs[i]) - h(xs[i])
    ensures Sum(xs, r) == Sum(xs, f) - Sum(xs, g) - Sum(xs, h)
  {
    var gh := (x: Entry) => g(x) + h(x);
    SumPlus(xs, g, h, gh);
    SumPlus(xs, r, gh, f);
  }

  /** What a student owes is what is left on the student's own charges. */
  lemma OutstandingIsSumOfRemaining(db: Db, student: int)
    requires Integrity(db)
    ensures Outstanding(db, student) == Sum(db.charges, RemainingFor(db, student))
    ensures 0 <= Outstanding(db, student)
  {
    var billed, settled, remaining := BilledFor(student), RowTotals(SettledPart(student), db.allocations),
      RemainingFor(db, student);
    forall i | 0 <= i < |db.charges|
      ensures billed(db.charges[i]) == remaining(db.charges[i]) + settled(db.charges[i])
      ensures 0 <= remaining(db.charges[i])
    {
      var c := db.charges[i];
      assert ChargeRowOk(db, i) && ChargeBalanced(db, i);
      if c.student == student && c.status != Cancelled {
        SumAgree(db.allocations, Row(SettledPart(student), c), OnCharge(i));
      } else {
        SumZero(db.allocations, Row(SettledPart(student), c));
      }
    }
    SumPlus(db.charges, remaining, settled, billed);
    SettledByCharge(db, student);
    SumNonNegative(db.charges, remaining);
  }
}
