/**
 The figures the dashboards show, computed with set-based sums or in one pass, against
 the balances of the ledger: `get_student_balance`, `_aging_buckets`,
 `_total_outstanding_credit`, `get_payment_options`, `get_payment_receipt`.
 */
module Reports {
  import opened Arithmetic
  import opened Wrappers
  import opened Sums
  import opened Tables
  import opened Balances
  import opened Payments
  import Calendar
  import Reversals

  // ---------------------------------------------------------------------------
  // Billed less settled, for any choice of charges
  // ---------------------------------------------------------------------------

  function BilledOn(pick: Charge -> bool): Charge -> int {
    (c: Charge) => if pick(c) then c.amount else 0
  }

  function SettledOn(charges: seq<Charge>, pick: Charge -> bool): Allocation -> int {
    (a: Allocation) => if a.reversedBy.None? && a.charge < |charges| && pick(charges[a.charge]) then a.amount else 0
  }

  function OwedOn(db: Db, pick: Charge -> bool): Charge -> int {
    (c: Charge) => if pick(c) then c.amount - ActiveOn(db, c.id) else 0
  }

  function SettledShare(pick: Charge -> bool): (Charge, Allocation) -> int {
    (c: Charge, a: Allocation) => if pick(c) then OnCharge(c.id)(a) else 0
  }

  /** Two independent sums over two tables, or one sum over what each charge still needs. */
  lemma OwedBySums(db: Db, pick: Charge -> bool)
    requires RowsOk(db)
    ensures Sum(db.charges, BilledOn(pick)) - Sum(db.allocations, SettledOn(db.charges, pick))
      == Sum(db.charges, OwedOn(db, pick))
  {
    var part, total := SettledShare(pick), SettledOn(db.charges, pick);
    forall j | 0 <= j < |db.allocations|
      ensures Sum(db.charges, Column(part, db.allocations[j])) == total(db.allocations[j])
    {
      var a := db.allocations[j];
      assert AllocationRowOk(db, j);
      forall i | 0 <= i < |db.charges| && i != a.charge ensures Column(part, a)(db.charges[i]) == 0 {
        assert ChargeRowOk(db, i);
        assert part(db.charges[i], a) == if pick(db.charges[i]) then OnCharge(i)(a) else 0;
      }
      SumSingle(db.charges, a.charge, Column(part, a));
      assert ChargeRowOk(db, a.charge);
      assert part(db.charges[a.charge], a) == if pick(db.charges[a.charge]) then OnCharge(a.charge)(a) else 0;
    }
    SumGrouped(db.charges, db.allocations, part, total);
    forall i | 0 <= i < |db.charges|
      ensures BilledOn(pick)(db.charges[i])
        == RowTotals(part, db.allocations)(db.charges[i]) + OwedOn(db, pick)(db.charges[i])
    {
      ShareOfCharge(db, pick, db.charges[i]);
    }
    SumPlus(db.charges, RowTotals(part, db.allocations), OwedOn(db, pick), BilledOn(pick));
  }

  lemma ShareOfCharge(db: Db, pick: Charge -> bool, c: Charge)
    ensures RowTotals(SettledShare(pick), db.allocations)(c) == if pick(c) then ActiveOn(db, c.id) else 0
  {
    var share := Row(SettledShare(pick), c);
    forall j | 0 <= j < |db.allocations|
      ensures share(db.allocations[j]) == if pick(c) then OnCharge(c.id)(db.allocations[j]) else 0
    {
      assert SettledShare(pick)(c, db.allocations[j]) == if pick(c) then OnCharge(c.id)(db.allocations[j]) else 0;
    }
    if pick(c) { SumAgree(db.allocations, share, OnCharge(c.id)); } else { SumZero(db.allocations, share); }
  }

  /** Where only live charges are picked, nothing is owed exactly when none is open. */
  lemma OwedMeansOpen(db: Db, pick: Charge -> bool)
    requires Integrity(db) && forall c: Charge :: pick(c) ==> c.status != Cancelled
    ensures 0 <= Sum(db.charges, OwedOn(db, pick))
    ensures 0 < Sum(db.charges, OwedOn(db, pick)) <==>
      exists c :: 0 <= c < |db.charges| && pick(db.charges[c]) && db.charges[c].status == Open
  {
    var owed := OwedOn(db, pick);
    forall i | 0 <= i < |db.charges|
      ensures 0 <= owed(db.charges[i])
      ensures 0 < owed(db.charges[i]) <==> pick(db.charges[i]) && db.charges[i].status == Open
    {
      assert ChargeRowOk(db, i) && ChargeBalanced(db, i);
    }
    SumNonNegative(db.charges, owed);
    if c :| 0 <= c < |db.charges| && pick(db.charges[c]) && db.charges[c].status == Open {
      SumMember(db.charges, c, owed);
    } else {
      SumZero(db.charges, owed);
    }
  }

  // ---------------------------------------------------------------------------
  // One student's balance
  // ---------------------------------------------------------------------------

  function DueOf(student: int, today: int): Charge -> bool {
    (c: Charge) => c.student == student && c.due <= today && c.status != Cancelled
  }

  predicate DueOpen(db: Db, student: int, today: int, c: nat) {
    c < |db.charges| && db.charges[c].student == student && db.charges[c].due <= today && db.charges[c].status == Open
  }

  datatype StudentBalance = StudentBalance(
    billedToDate: int, totalSettled: int, netReceivable: int, creditBalance: int, daysOverdue: int)

  /** `get_student_balance`: something is receivable exactly when a due charge is open, and
      the days overdue are those of the oldest of them. */
  method GetStudentBalance(db: Db, student: int, today: int) returns (b: StudentBalance)
    requires Integrity(db)
    ensures b.netReceivable == b.billedToDate - b.totalSettled == Sum(db.charges, OwedOn(db, DueOf(student, today)))
    ensures 0 < b.netReceivable <==> exists c: nat :: DueOpen(db, student, today, c)
    ensures b.netReceivable == 0 ==> b.daysOverdue == 0
    ensures forall c: nat :: DueOpen(db, student, today, c) ==> today - db.charges[c].due <= b.daysOverdue
    ensures 0 < b.netReceivable ==> exists c: nat ::
      DueOpen(db, student, today, c) && today - db.charges[c].due == b.daysOverdue
    ensures b.creditBalance == Sum(db.entries, AvailableFor(db, student))
  {
    var due := DueOf(student, today);
    var billed := Sum(db.charges, BilledOn(due));
    var settled := Sum(db.allocations, SettledOn(db.charges, due));
    var net := Max(0, billed - settled);
    var oldest: Option<nat> := None;
    for c := 0 to |db.charges|
      invariant oldest.Some? ==> DueOpen(db, student, today, oldest.value)
      invariant forall d ::
        0 <= d < c && DueOpen(db, student, today, d) ==>
        oldest.Some? && db.charges[oldest.value].due <= db.charges[d].due
    {
      if DueOpen(db, student, today, c) && (oldest.None? || db.charges[c].due < db.charges[oldest.value].due) {
        oldest := Some(c);
      }
    }
    OwedBySums(db, due);
    OwedMeansOpen(db, due);
    WalletIsSumOfAvailable(db, student);
    forall c: nat | c < |db.charges| ensures due(db.charges[c]) && db.charges[c].status == Open <==>
      DueOpen(db, student, today, c) {}
    if net > 0 {
      assert oldest.Some? && DueOpen(db, student, today, oldest.value);
    }
    var days := if oldest.Some? && net > 0 then today - db.charges[oldest.value].due else 0;
    b := StudentBalance(billed, settled, net, Wallet(db, student), Max(0, days));
  }

  // ---------------------------------------------------------------------------
  // Aging
  // ---------------------------------------------------------------------------

  /** Enrollments the reports count: active or withdrawn, of students that exist. */
  function Counted(db: Db, deleted: set<int>, today: int): Charge -> bool {
    (c: Charge) =>
      c.enrollment < |db.enrollments| && db.enrollments[c.enrollment].status in {Active, Withdrawn}
      && db.enrollments[c.enrollment].student !in deleted && c.due <= today && c.status != Cancelled
  }

  /** An open charge counts from its due day on, in the balance of its student, and in the
      reports while its enrollment is active or withdrawn and its student not deleted. */
  lemma CountsFromItsDueDay(db: Db, deleted: set<int>, student: int, today: int, c: nat)
    requires RowsOk(db) && c < |db.charges| && db.charges[c].status == Open
    ensures db.charges[c].enrollment < |db.enrollments|
    ensures var charge, e := db.charges[c], db.enrollments[db.charges[c].enrollment];
      && (DueOpen(db, student, today, c) <==> charge.due <= today && charge.student == student)
      && (DueOf(student, today)(charge) <==> charge.due <= today && charge.student == student)
      && (Counted(db, deleted, today)(charge) <==>
            charge.due <= today && e.status != Completed && charge.student !in deleted)
  {
    assert ChargeRowOk(db, c);
  }

  /** What is owed on a charge that is between `from` and `to` days overdue. */
  function AgedOn(db: Db, deleted: set<int>, today: int, from: int, to: Option<int>): Charge -> int {
    (c: Charge) =>
      if from <= today - c.due && (to.None? || today - c.due <= to.value)
        then OwedOn(db, Counted(db, deleted, today))(c)
      else 0
  }

  /** What the first `k` charges put into each bucket: up to 30, 60 and 90 days, and more. */
  ghost predicate AgedUpTo(db: Db, deleted: set<int>, today: int, k: nat, buckets: seq<int>)
    requires k <= |db.charges|
  {
    && |buckets| == 4
    && buckets[0] == Sum(db.charges[..k], AgedOn(db, deleted, today, 0, Some(30)))
    && buckets[1] == Sum(db.charges[..k], AgedOn(db, deleted, today, 31, Some(60)))
    && buckets[2] == Sum(db.charges[..k], AgedOn(db, deleted, today, 61, Some(90)))
    && buckets[3] == Sum(db.charges[..k], AgedOn(db, deleted, today, 91, None))
  }

  /** `_aging_buckets`: each bucket holds what is owed at its age, and together they hold
      everything billed and not settled to date. */
  method AgingBuckets(db: Db, deleted: set<int>, today: int) returns (buckets: seq<int>)
    requires Integrity(db)
    ensures |buckets| == 4
    ensures buckets[0] == Sum(db.charges, AgedOn(db, deleted, today, 0, Some(30)))
    ensures buckets[1] == Sum(db.charges, AgedOn(db, deleted, today, 31, Some(60)))
    ensures buckets[2] == Sum(db.charges, AgedOn(db, deleted, today, 61, Some(90)))
    ensures buckets[3] == Sum(db.charges, AgedOn(db, deleted, today, 91, None))
    ensures buckets[0] + buckets[1] + buckets[2] + buckets[3]
         == Sum(db.charges, BilledOn(Counted(db, deleted, today)))
           - Sum(db.allocations, SettledOn(db.charges, Counted(db, deleted, today)))
  {
    var counted := Counted(db, deleted, today);
    buckets := [0, 0, 0, 0];
    for k := 0 to |db.charges|
      invariant AgedUpTo(db, deleted, today, k, buckets)
      invariant buckets[0] + buckets[1] + buckets[2] + buckets[3] == Sum(db.charges[..k], OwedOn(db, counted))
    {
      var c := db.charges[k];
      AgeOneCharge(db, deleted, today, k, 0, Some(30));
      AgeOneCharge(db, deleted, today, k, 31, Some(60));
      AgeOneCharge(db, deleted, today, k, 61, Some(90));
      AgeOneCharge(db, deleted, today, k, 91, None);
      if counted(c) && c.status == Open {
        var remaining := c.amount - ActiveOn(db, c.id);
        if remaining > 0 {
          var overdue := today - c.due;
          if overdue <= 30 {
            buckets := buckets[0 := buckets[0] + remaining];
          } else if overdue <= 60 {
            buckets := buckets[1 := buckets[1] + remaining];
          } else if overdue <= 90 {
            buckets := buckets[2 := buckets[2] + remaining];
          } else {
            buckets := buckets[3 := buckets[3] + remaining];
          }
        }
      }
    }
    assert db.charges[..|db.charges|] == db.charges;
    OwedBySums(db, counted);
  }

  lemma AgeOneCharge(db: Db, deleted: set<int>, today: int, k: nat, from: int, to: Option<int>)
    requires Integrity(db) && k < |db.charges|
    ensures var c, counted := db.charges[k], Counted(db, deleted, today);
      var owed := if counted(c) && c.status == Open then c.amount - ActiveOn(db, c.id) else 0;
      && 0 <= owed && (counted(c) ==> 0 <= today - c.due)
      && Sum(db.charges[..k + 1], OwedOn(db, counted)) == Sum(db.charges[..k], OwedOn(db, counted)) + owed
      && Sum(db.charges[..k + 1], AgedOn(db, deleted, today, from, to))
        == Sum(db.charges[..k], AgedOn(db, deleted, today, from, to))
          + (if from <= today - c.due && (to.None? || today - c.due <= to.value) then owed else 0)
  {
    var c, counted := db.charges[k], Counted(db, deleted, today);
    assert ChargeRowOk(db, k) && ChargeBalanced(db, k);
    assert db.charges[..k + 1] == db.charges[..k] + [c];
    SumAppend(db.charges[..k], c, OwedOn(db, counted));
    assert OwedOn(db, counted)(c) == if counted(c) then c.amount - ActiveOn(db, c.id) else 0;
    SumAppend(db.charges[..k], c, AgedOn(db, deleted, today, from, to));
  }

  // ---------------------------------------------------------------------------
  // All wallets together
  // ---------------------------------------------------------------------------

  function WalletOf(db: Db): int -> int { (student: int) => Wallet(db, student) }

  predicate HasCredit(db: Db, student: int) {
    exists e :: 0 <= e < |db.entries| && LiveCredit(db.entries, student, e)
  }

  ghost predicate Different(students: seq<int>) {
    forall i, j :: 0 <= i < j < |students| ==> students[i] != students[j]
  }

  /** A list of students that leaves out nobody who ever received credit. */
  ghost predicate Everybody(db: Db, students: seq<int>) {
    Different(students) && forall s: int :: HasCredit(db, s) ==> s in students
  }

  lemma NoCreditNoWallet(db: Db, student: int)
    requires Integrity(db) && !HasCredit(db, student)
    ensures Wallet(db, student) == 0
  {
    WalletIsSumOfAvailable(db, student);
    forall i | 0 <= i < |db.entries| ensures AvailableFor(db, student)(db.entries[i]) == 0 { assert EntryRowOk(db, i); }
    SumZero(db.entries, AvailableFor(db, student));
  }

  lemma {:induction false} SumWithout(xs: seq<int>, k: nat, v: int -> int)
    requires k < |xs|
    ensures Sum(xs, v) == Sum(xs[..k] + xs[k + 1..], v) + v(xs[k])
  {
    hide Sum;
    var before, after := xs[..k], xs[k + 1..];
    assert xs == (before + [xs[k]]) + after;
    SumConcat(before + [xs[k]], after, v);
    SumAppend(before, xs[k], v);
    SumConcat(before, after, v);
  }

  /** Two lists without repetition that differ only in members of no value. */
  lemma {:induction false} SumSameMembers(xs: seq<int>, ys: seq<int>, v: int -> int)
    requires Different(xs) && Different(ys) && forall x :: x in xs ==> x in ys
    requires forall y :: y in ys && y !in xs ==> v(y) == 0
    ensures Sum(xs, v) == Sum(ys, v)
    decreases |xs|
  {
    if xs == [] {
      SumZero(ys, v);
    } else {
      var x := xs[|xs| - 1];
      assert x in ys;
      var k :| 0 <= k < |ys| && ys[k] == x;
      var rest := ys[..k] + ys[k + 1..];
      SumWithout(ys, k, v);
      var front := xs[..|xs| - 1];
      forall z | z in front ensures z in rest { assert z in xs; }
      forall y | y in rest && y !in front ensures v(y) == 0 { assert y in ys; }
      SumSameMembers(front, rest, v);
    }
  }

  function CreditOf(db: Db, student: int): int { Sum(db.entries, CreditFor(db.entries, student)) }

  function CashOf(db: Db, student: int): int { Sum(db.entries, CashOutFor(student)) }

  function SpentOf(db: Db, student: int): int { Sum(db.allocations, SpentFor(db.entries, student)) }

  /** Every student of a group once, and else only students with an empty wallet. */
  ghost predicate ListsAll(db: Db, students: seq<int>, group: set<int>) {
    && Different(students) && (forall s :: s in group ==> s in students)
    && forall s :: s in students && s !in group ==> WalletOf(db)(s) == 0
  }

  lemma SomeMember(students: set<int>)
    ensures students == {} || exists s :: s in students
  {
    if forall s: int :: s !in students { assert students == {}; }
  }

  /** The loop that joins the groups: a student missing from a group has nothing in it. */
  method JoinGroups(db: Db, credit: map<int, int>, cashOut: map<int, int>, spent: map<int, int>) returns (total: int)
    requires forall s :: s in credit ==> credit[s] == CreditOf(db, s)
    requires forall s: int :: CashOf(db, s) == if s in cashOut then cashOut[s] else 0
    requires forall s: int :: SpentOf(db, s) == if s in spent then spent[s] else 0
    ensures forall students :: ListsAll(db, students, credit.Keys) ==> total == Sum(students, WalletOf(db))
  {
    hide Sum, Wallet, CreditOf, CashOf, SpentOf, WalletOf;
    total := 0;
    ghost var done: seq<int> := [];
    SumZero(done, WalletOf(db));
    var rest := credit.Keys;
    while rest != {}
      invariant Different(done) && rest <= credit.Keys && forall s :: s in done <==> s in credit && s !in rest
      invariant total == Sum(done, WalletOf(db))
      decreases |rest|
    {
      SomeMember(rest);
      var s :| s in rest;
      WalletByGroups(db, s);
      var wallet := credit[s] - (if s in cashOut then cashOut[s] else 0) - (if s in spent then spent[s] else 0);
      if wallet > 0 {
        total := total + wallet;
      }
      SumAppend(done, s, WalletOf(db));
      done := done + [s];
      rest := rest - {s};
    }
    forall students | ListsAll(db, students, credit.Keys) ensures total == Sum(students, WalletOf(db)) {
      SumSameMembers(done, students, WalletOf(db));
    }
  }

  /** `_total_outstanding_credit`: three grouped sums, joined by student, add up to the
      wallets of all students. */
  method TotalOutstandingCredit(db: Db) returns (total: int)
    requires Integrity(db)
    ensures forall students :: Everybody(db, students) ==> total == Sum(students, WalletOf(db))
  {
    hide Sum, Integrity, RowsOk, Wallet, CreditOf, CashOf, SpentOf, Everybody, HasCredit, Consumes, IsCredit;
    hide Voided, WalletOf;
    IntegrityHasRows(db);
    var credited := set e | 0 <= e < |db.entries| && IsCredit(db.entries[e]) && !Voided(db.entries, e) ::
      db.entries[e].student;
    var refunded := set e | 0 <= e < |db.entries| && db.entries[e].kind == Refund && db.entries[e].cashOut ::
      db.entries[e].student;
    var spending := set i | 0 <= i < |db.allocations| && db.allocations[i].entry < |db.entries| ::
      db.entries[db.allocations[i].entry].student;
    var credit := map s | s in credited :: CreditOf(db, s);
    var cashOut := map s | s in refunded :: CashOf(db, s);
    var spent := map s | s in spending :: SpentOf(db, s);
    CreditedHaveCredit(db, credited);
    NotGrouped(db, refunded, spending);
    total := JoinGroups(db, credit, cashOut, spent);
    forall students | Everybody(db, students) ensures total == Sum(students, WalletOf(db)) {
      EverybodyCounts(db, credited, students);
    }
  }

  lemma CreditedHaveCredit(db: Db, credited: set<int>)
    requires credited == set e | 0 <= e < |db.entries| && IsCredit(db.entries[e]) && !Voided(db.entries, e) ::
      db.entries[e].student
    ensures forall s: int :: s in credited <==> HasCredit(db, s)
  {
    forall s: int ensures s in credited <==> HasCredit(db, s) {
      if HasCredit(db, s) {
        var e :| 0 <= e < |db.entries| && LiveCredit(db.entries, s, e);
        assert db.entries[e].student in credited;
      }
      if s in credited {
        var e :| 0 <= e < |db.entries| && IsCredit(db.entries[e]) && !Voided(db.entries, e) &&
          db.entries[e].student == s;
        assert LiveCredit(db.entries, s, e);
      }
    }
  }

  lemma WalletByGroups(db: Db, student: int)
    ensures WalletOf(db)(student) == Wallet(db, student)
      == Max(0, CreditOf(db, student) - CashOf(db, student) - SpentOf(db, student))
  {
  }

  /** A student a group leaves out has a sum of zero. */
  lemma NotGrouped(db: Db, refunded: set<int>, spending: set<int>)
    requires RowsOk(db)
    requires refunded == set e | 0 <= e < |db.entries| && db.entries[e].kind == Refund && db.entries[e].cashOut ::
      db.entries[e].student
    requires spending == set i | 0 <= i < |db.allocations| && db.allocations[i].entry < |db.entries| ::
      db.entries[db.allocations[i].entry].student
    ensures forall s: int :: s !in refunded ==> CashOf(db, s) == 0
    ensures forall s: int :: s !in spending ==> SpentOf(db, s) == 0
  {
    forall s: int | s !in refunded ensures CashOf(db, s) == 0 {
      SumZero(db.entries, CashOutFor(s));
    }
    forall s: int | s !in spending ensures SpentOf(db, s) == 0 {
      forall i | 0 <= i < |db.allocations| ensures SpentFor(db.entries, s)(db.allocations[i]) == 0 {
        assert AllocationRowOk(db, i);
        assert !LiveCredit(db.entries, s, db.allocations[i].entry);
      }
      SumZero(db.allocations, SpentFor(db.entries, s));
    }
  }

  lemma EverybodyCounts(db: Db, credited: set<int>, students: seq<int>)
    requires Integrity(db) && Everybody(db, students)
    requires forall s: int :: s in credited <==> HasCredit(db, s)
    ensures ListsAll(db, students, credited)
  {
    forall s | s in students && s !in credited ensures WalletOf(db)(s) == 0 { NoCreditNoWallet(db, s); }
  }

  // ---------------------------------------------------------------------------
  // Payment options
  // ---------------------------------------------------------------------------

  /** The maximum `get_payment_options` offers for an enrollment, if it lists it. */
  function Offered(db: Db, student: int, enrollment: nat): Option<int> {
    if enrollment < |db.enrollments| && db.enrollments[enrollment].student == student
       && (db.enrollments[enrollment].status == Active
           || (db.enrollments[enrollment].status == Withdrawn && OpenBalance(db, enrollment) > 0))
    then Some(OpenBalance(db, enrollment))
    else None
  }

  predicate WithinOffers(db: Db, student: int, portions: seq<Portion>) {
    forall i :: 0 <= i < |portions| ==>
      Offered(db, student, portions[i].enrollment).Some? &&
        portions[i].amount <= Offered(db, student, portions[i].enrollment).value
  }

  lemma {:induction false} OffersAreTheLimits(db: Db, student: int, portions: seq<Portion>)
    ensures FirstTargetError(db, student, portions).None? <==> WithinOffers(db, student, portions)
  {
    if portions != [] {
      OffersAreTheLimits(db, student, portions[1..]);
      assert portions == [portions[0]] + portions[1..];
    }
  }

  /** A payment is accepted exactly when its portions add up, name each enrollment once,
      stay within the offers, and fall in an open period. */
  lemma OfferedIsAccepted(db: Db, student: int, course: nat, portions: seq<Portion>, amount: int, at: nat)
    ensures PaymentCheck(db, student, course, Some(portions), amount, at).Success? <==>
      0 < amount <= MAX_CENTS && !IsClosed(db, Calendar.PeriodKey(at)) && Sum(portions, PortionAmount()) == amount
      && DistinctTargets(portions) && WithinOffers(db, student, portions)
  {
    OffersAreTheLimits(db, student, portions);
    DistinctByCount(portions);
  }

  // ---------------------------------------------------------------------------
  // Receipts
  // ---------------------------------------------------------------------------

  datatype ReceiptStatus = Valid | PartiallyRefunded | FullyRefunded | VoidedReceipt

  datatype Receipt = Receipt(status: ReceiptStatus, refundedAmount: int, netAmount: int)

  /** `get_payment_receipt`. */
  function ReceiptOf(db: Db, payment: nat): Receipt
    requires Reversals.IsPayment(db, payment)
  {
    var amount, refunded, voided := db.entries[payment].amount, Refunded(db, payment), Voided(db.entries, payment);
    Receipt(if voided then VoidedReceipt else if refunded >= amount then FullyRefunded
      else if refunded > 0 then PartiallyRefunded else Valid,
      refunded, if voided then 0 else amount - refunded)
  }

  /** A receipt never shows more than was paid nor less than nothing, and its status says
      whether a void names the payment, and else whether refunds name none, some or all of it. */
  lemma ReceiptIsSound(db: Db, payment: nat)
    requires Integrity(db) && Reversals.IsPayment(db, payment)
    ensures var receipt, amount := ReceiptOf(db, payment), db.entries[payment].amount;
      && 0 <= receipt.netAmount <= amount && 0 <= receipt.refundedAmount <= amount
      && (receipt.status == VoidedReceipt <==>
            exists k :: 0 <= k < |db.entries| && db.entries[k].kind == Void && db.entries[k].reverses == Some(payment))
      && (receipt.status == VoidedReceipt ==> receipt.refundedAmount == receipt.netAmount == 0)
      && (receipt.status != VoidedReceipt ==> receipt.netAmount + receipt.refundedAmount == amount)
      && (receipt.status == FullyRefunded ==> receipt.refundedAmount == amount)
      && (receipt.status == PartiallyRefunded ==> 0 < receipt.refundedAmount < amount)
      && (receipt.status == Valid ==> receipt.netAmount == amount)
      && (0 < receipt.refundedAmount <==> Reversals.HasRefund(db.entries, payment))
  {
    assert EntryCovered(db, payment) && EntryRowOk(db, payment);
    forall i | 0 <= i < |db.entries| ensures 0 <= RefundOf(payment)(db.entries[i]) { assert EntryRowOk(db, i); }
    SumNonNegative(db.entries, RefundOf(payment));
    if Reversals.HasRefund(db.entries, payment) {
      var k :| 0 <= k < |db.entries| && db.entries[k].kind == Refund && db.entries[k].reverses == Some(payment);
      assert EntryRowOk(db, k);
      SumMember(db.entries, k, RefundOf(payment));
    } else {
      Reversals.NoRefundNoAmount(db, payment);
    }
  }
}
