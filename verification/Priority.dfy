/**
 Who is served first, said of the rows themselves: payments settle charges by due date,
 sequence number and id, wallet credit settles them in that order or by due date and id,
 and is taken from the student's credit entries by date and id.
 */
module Priority {
  import opened Wrappers
  import opened Sums
  import opened Waterfall
  import opened Tables
  import opened Balances
  import opened Posting
  import opened Ordering
  import opened Queries
  import opened Crediting
  import opened Payments
  import opened Concessions
  import opened Operations

  /** Charge `c` falls due before `d`; on one day the sequence number decides, then the id. */
  predicate DueBefore(db: Db, c: nat, d: nat)
    requires c < |db.charges| && d < |db.charges|
  {
    var x, y := db.charges[c], db.charges[d];
    if x.due != y.due then x.due < y.due else if x.sequenceNo != y.sequenceNo then x.sequenceNo < y.sequenceNo
      else c < d
  }

  /** Credit entry `a` is older than `b`; of one instant the id decides. */
  predicate Older(db: Db, a: nat, b: nat)
    requires a < |db.entries| && b < |db.entries|
  {
    if db.entries[a].at != db.entries[b].at then db.entries[a].at < db.entries[b].at else a < b
  }

  /** Charge `c` has more applied to it than before. */
  predicate Gains(db: Db, next: Db, c: nat) { ActiveOn(db, c) < ActiveOn(next, c) }

  /** More of entry `e` is used than before. */
  predicate Gives(db: Db, next: Db, e: nat) { Consumed(db, e) < Consumed(next, e) }

  /** Nothing remains to be paid on charge `c`. */
  predicate InFull(db: Db, c: nat)
    requires c < |db.charges|
  {
    ActiveOn(db, c) == db.charges[c].amount
  }

  // ---------------------------------------------------------------------------
  // One pass of `_apply_credit`
  // ---------------------------------------------------------------------------

  /** A later charge of the list gains only once an earlier one is settled. */
  lemma ChargesInOrder(db: Db, student: int, entries: seq<nat>, charges: seq<nat>, limit: Option<int>, i: nat, j: nat)
    requires Integrity(db) && Distinct(entries) && Distinct(charges)
    requires Payers(db, entries, student) && Payees(db, charges, student) && i < j < |charges|
    requires Gains(db, ApplyCredit(db, entries, charges, limit), charges[j])
    ensures InFull(ApplyCredit(db, entries, charges, limit), charges[i])
  {
    hide CreditRows, Placed, Need, NeedsOf, Sum, Payers, Before;
    var n := NeedsOf(db, charges);
    CreditRowsSpendable(db, entries, charges, limit, student);
    SpendSums(db, CreditRows(db, entries, charges, limit));
    CreditReceivedOldestFirst(db, entries, charges, limit, i);
    CreditReceivedOldestFirst(db, entries, charges, limit, j);
    NeedAt(db, charges, i);
    BeforeStep(n, i);
    BeforeMonotone(n, i + 1, j);
    assert ChargeBalanced(db, charges[i]);
  }

  lemma NeedAt(db: Db, charges: seq<nat>, i: nat)
    requires i < |charges|
    ensures |NeedsOf(db, charges)| == |charges| && NeedsOf(db, charges)[i] == Need(db, charges[i])
    ensures charges[i] < |db.charges| && ChargeBalanced(db, charges[i]) ==>
      Need(db, charges[i]) == db.charges[charges[i]].amount - ActiveOn(db, charges[i])
  {
  }

  /** A charge that is not listed gains nothing, and none loses. */
  lemma OthersGainNothing(db: Db, student: int, entries: seq<nat>, charges: seq<nat>, limit: Option<int>, c: nat)
    requires Integrity(db) && Distinct(entries) && Distinct(charges)
    requires Payers(db, entries, student) && Payees(db, charges, student)
    ensures ActiveOn(db, c) <= ActiveOn(ApplyCredit(db, entries, charges, limit), c)
    ensures Gains(db, ApplyCredit(db, entries, charges, limit), c) ==> c in charges
  {
    hide CreditRows, Payers;
    var rows := CreditRows(db, entries, charges, limit);
    CreditRowsSpendable(db, entries, charges, limit, student);
    SpendSums(db, rows);
    if c !in charges {
      forall k | 0 <= k < |rows| ensures OnCharge(c)(rows[k]) == 0 { CreditRowFrom(db, entries, charges, limit, k); }
      SumZero(rows, OnCharge(c));
    }
  }

  /** A later entry of the list gives only once an earlier one is used up. */
  lemma EntriesInOrder(db: Db, student: int, entries: seq<nat>, charges: seq<nat>, limit: Option<int>, i: nat, j: nat)
    requires Integrity(db) && Distinct(entries) && Distinct(charges)
    requires Payers(db, entries, student) && Payees(db, charges, student) && i < j < |entries|
    requires Gives(db, ApplyCredit(db, entries, charges, limit), entries[j])
    ensures Available(ApplyCredit(db, entries, charges, limit), entries[i]) == 0
  {
    hide CreditRows, Placed, Usable, UsableOf, Sum, Payees, Before;
    var a := UsableOf(db, entries);
    CreditRowsSpendable(db, entries, charges, limit, student);
    SpendSums(db, CreditRows(db, entries, charges, limit));
    CreditGivenOldestFirst(db, entries, charges, limit, i);
    CreditGivenOldestFirst(db, entries, charges, limit, j);
    UsableAt(db, entries, i);
    BeforeStep(a, i);
    BeforeMonotone(a, i + 1, j);
    assert EntryCovered(db, entries[i]);
  }

  lemma UsableAt(db: Db, entries: seq<nat>, i: nat)
    requires i < |entries|
    ensures |UsableOf(db, entries)| == |entries| && UsableOf(db, entries)[i] == Usable(db, entries[i])
    ensures entries[i] < |db.entries| && EntryCovered(db, entries[i]) ==>
      Usable(db, entries[i]) == Available(db, entries[i])
  {
  }

  lemma OthersGiveNothing(db: Db, student: int, entries: seq<nat>, charges: seq<nat>, limit: Option<int>, e: nat)
    requires Integrity(db) && Distinct(entries) && Distinct(charges)
    requires Payers(db, entries, student) && Payees(db, charges, student)
    ensures Consumed(db, e) <= Consumed(ApplyCredit(db, entries, charges, limit), e)
    ensures Gives(db, ApplyCredit(db, entries, charges, limit), e) ==> e in entries
  {
    hide CreditRows, Payees;
    var rows := CreditRows(db, entries, charges, limit);
    CreditRowsSpendable(db, entries, charges, limit, student);
    SpendSums(db, rows);
    if e !in entries {
      forall k | 0 <= k < |rows| ensures OfEntry(e)(rows[k]) == 0 { CreditRowFrom(db, entries, charges, limit, k); }
      SumZero(rows, OfEntry(e));
    }
  }

  // ---------------------------------------------------------------------------
  // One pass over the wallet
  // ---------------------------------------------------------------------------

  /** `charges` are charges of the student that are not cancelled, and this pass pours the
      student's wallet into them. */
  ghost predicate WalletPass(db: Db, next: Db, student: int, charges: seq<nat>, limit: Option<int>) {
    && Integrity(db) && Distinct(charges) && Payees(db, charges, student)
    && next == ApplyCredit(db, CreditEntries(db, student), charges, limit)
  }

  /** The older of two credit entries is used up before the other one gives. */
  lemma {:induction false} PassTakesOldestFirst(db: Db, next: Db, student: int, charges: seq<nat>, limit: Option<int>,
                                                a: nat, b: nat)
    requires WalletPass(db, next, student, charges, limit) && LiveCredit(db.entries, student, a)
    requires b < |db.entries| && Older(db, a, b) && Gives(db, next, b)
    ensures Available(next, a) == 0
  {
    hide ApplyCredit, CreditEntries, Selects, Payees, Integrity, LiveCredit, Consumed;
    var entries := CreditEntries(db, student);
    IntegrityHasRows(db);
    CreditEntriesPay(db, student);
    CreditEntriesSelected(db, student);
    OthersGiveNothing(db, student, entries, charges, limit, b);
    var i, j := Positions(entries, |db.entries|, IsLiveCredit(db, student), EntryKey(db), a, b);
    EntriesInOrder(db, student, entries, charges, limit, i, j);
  }

  /** Nothing a pass has settled or used up comes back, and the rows stay as they are. */
  lemma PassKeeps(db: Db, next: Db, student: int, charges: seq<nat>, limit: Option<int>)
    requires WalletPass(db, next, student, charges, limit)
    ensures Integrity(next) && next.entries == db.entries && |next.charges| == |db.charges|
    ensures forall c :: 0 <= c < |db.charges| ==> next.charges[c] == db.charges[c].(status := next.charges[c].status)
    ensures forall c :: 0 <= c < |db.charges| ==>
      (next.charges[c].status == Cancelled <==> db.charges[c].status == Cancelled)
    ensures forall c: nat :: ActiveOn(db, c) <= ActiveOn(next, c)
    ensures forall e: nat :: Consumed(db, e) <= Consumed(next, e)
  {
    hide CreditRows, CreditEntries, ActiveOn, Consumed, Balanced;
    IntegrityHasRows(db);
    CreditEntriesPay(db, student);
    CreditApplied(db, student, charges, limit, student);
    forall c: nat ensures ActiveOn(db, c) <= ActiveOn(next, c) {
      OthersGainNothing(db, student, CreditEntries(db, student), charges, limit, c);
    }
    forall e: nat ensures Consumed(db, e) <= Consumed(next, e) {
      OthersGiveNothing(db, student, CreditEntries(db, student), charges, limit, e);
    }
  }

  /** A pass over open charges settles the earlier of two before the later one gains. */
  lemma {:induction false} PassSettlesInOrder(db: Db, next: Db, student: int, enrollment: Option<nat>, c: nat, d: nat)
    requires WalletPass(db, next, student, OpenCharges(db, student, enrollment), None)
    requires c < |db.charges| && d < |db.charges| && DueBefore(db, c, d) && Gains(db, next, d)
    requires db.charges[c].student == student && db.charges[c].status != Cancelled
    requires enrollment.Some? ==> db.charges[c].enrollment == enrollment.value
    ensures InFull(next, c)
  {
    hide ApplyCredit, CreditEntries, OpenCharges, Selects, Payees, Payers, ActiveOn;
    var charges := OpenCharges(db, student, enrollment);
    IntegrityHasRows(db);
    CreditEntriesPay(db, student);
    OpenChargesSelected(db, student, enrollment);
    OthersGainNothing(db, student, CreditEntries(db, student), charges, None, d);
    PassKeeps(db, next, student, charges, None);
    assert ChargeBalanced(db, c) && ChargeBalanced(next, c);
    if db.charges[c].status == Open {
      ListedAreOpen(db, student, enrollment, d);
      var i, j := Positions(charges, |db.charges|, IsOpenFor(db, student, enrollment), InstallmentKey(db), c, d);
      ChargesInOrder(db, student, CreditEntries(db, student), charges, None, i, j);
    }
  }

  lemma ListedAreOpen(db: Db, student: int, enrollment: Option<nat>, d: nat)
    requires d in OpenCharges(db, student, enrollment)
    ensures d < |db.charges| && IsOpenFor(db, student, enrollment)(d)
  {
    OpenChargesSelected(db, student, enrollment);
  }

  // ---------------------------------------------------------------------------
  // Course credit
  // ---------------------------------------------------------------------------

  /** Charge `c` falls due before `d`; on one day the id decides. */
  predicate DueFirst(db: Db, c: nat, d: nat)
    requires c < |db.charges| && d < |db.charges|
  {
    if db.charges[c].due != db.charges[d].due then db.charges[c].due < db.charges[d].due else c < d
  }

  lemma CoursePass(db: Db, op: Operation)
    requires Good(db) && op.AllocateCourse? && ErrorOf(db, op).None?
    ensures WalletPass(db, Next(db, op), op.student, CourseCharges(db, op.student, op.enrollment),
      Some(CourseCreditAmount(db, op.student, op.enrollment, op.requested)))
  {
    hide ApplyCredit, CreditEntries, CourseCharges, Integrity, CourseCreditAmount, CourseCreditError;
    CourseChargesTake(db, op.student, op.enrollment);
  }

  /** Course credit settles the charges of its enrollment by due date, then id. */
  lemma {:induction false} CourseCreditInOrder(db: Db, op: Operation, c: nat, d: nat)
    requires Good(db) && op.AllocateCourse? && ErrorOf(db, op).None?
    requires c < |db.charges| && d < |db.charges| && DueFirst(db, c, d) && Gains(db, Next(db, op), d)
    requires db.charges[c].student == op.student && db.charges[c].enrollment == op.enrollment
    requires db.charges[c].status != Cancelled
    ensures InFull(Next(db, op), c)
  {
    hide ApplyCredit, CreditEntries, CourseCharges, Selects, Payees, Payers, ActiveOn, Next;
    var charges := CourseCharges(db, op.student, op.enrollment);
    var limit := Some(CourseCreditAmount(db, op.student, op.enrollment, op.requested));
    CoursePass(db, op);
    IntegrityHasRows(db);
    CreditEntriesPay(db, op.student);
    CourseChargesSelected(db, op.student, op.enrollment);
    OthersGainNothing(db, op.student, CreditEntries(db, op.student), charges, limit, d);
    ListedAreLive(db, op.student, op.enrollment, d);
    var i, j := Positions(charges, |db.charges|, IsLiveFor(db, op.student, op.enrollment), DueKey(db), c, d);
    ChargesInOrder(db, op.student, CreditEntries(db, op.student), charges, limit, i, j);
  }

  lemma ListedAreLive(db: Db, student: int, enrollment: nat, d: nat)
    requires d in CourseCharges(db, student, enrollment)
    ensures d < |db.charges| && IsLiveFor(db, student, enrollment)(d)
  {
    CourseChargesSelected(db, student, enrollment);
  }

  // ---------------------------------------------------------------------------
  // Automatic allocation
  // ---------------------------------------------------------------------------

  /** Both charges are of the preferred enrollment, or neither is. */
  predicate SameSide(db: Db, preferred: Option<nat>, c: nat, d: nat)
    requires c < |db.charges| && d < |db.charges|
  {
    preferred.Some? ==>
      (db.charges[c].enrollment == preferred.value <==> db.charges[d].enrollment == preferred.value)
  }

  lemma AutoPasses(db: Db, op: Operation) returns (first: Db)
    requires Good(db) && op.AutoAllocate?
    ensures first == AfterPreferred(db, op.student, op.preferred)
    ensures op.preferred.None? ==> first == db
    ensures op.preferred.Some? ==> WalletPass(db, first, op.student, OpenCharges(db, op.student, op.preferred), None)
    ensures WalletPass(first, Next(db, op), op.student, OpenCharges(first, op.student, None), None)
  {
    hide ApplyCredit, CreditEntries, OpenCharges, Integrity;
    first := AfterPreferred(db, op.student, op.preferred);
    OpenChargesTake(db, op.student, op.preferred);
    if op.preferred.Some? {
      CreditApplied(db, op.student, OpenCharges(db, op.student, op.preferred), None, op.student);
    }
    OpenChargesTake(first, op.student, None);
  }

  /** Automatic allocation settles charges by due date, sequence number and id, those of
      the preferred enrollment and the others separately. */
  lemma {:induction false} AutoAllocationInOrder(db: Db, op: Operation, c: nat, d: nat)
    requires Good(db) && op.AutoAllocate?
    requires c < |db.charges| && d < |db.charges| && DueBefore(db, c, d) && Gains(db, Next(db, op), d)
    requires db.charges[c].student == op.student && db.charges[c].status != Cancelled
    requires SameSide(db, op.preferred, c, d)
    ensures |Next(db, op).charges| == |db.charges| && InFull(Next(db, op), c)
  {
    hide Next, Payees, Integrity, OpenCharges, ActiveOn, AfterPreferred, ApplyCredit;
    var first := AutoPasses(db, op);
    var next := Next(db, op);
    PassKeeps(first, next, op.student, OpenCharges(first, op.student, None), None);
    if op.preferred.Some? {
      var charges := OpenCharges(db, op.student, op.preferred);
      PassKeeps(db, first, op.student, charges, None);
      if Gains(db, first, d) {
        PassServesItsOwn(db, first, op.student, op.preferred, d);
        PassSettlesInOrder(db, first, op.student, op.preferred, c, d);
        FullStaysFull(first, next, c);
      }
    }
    if Gains(first, next, d) { PassSettlesInOrder(first, next, op.student, None, c, d); }
  }

  lemma FullStaysFull(db: Db, next: Db, c: nat)
    requires Integrity(next) && c < |db.charges| == |next.charges| && InFull(db, c)
    requires next.charges[c].amount == db.charges[c].amount && ActiveOn(db, c) <= ActiveOn(next, c)
    ensures InFull(next, c)
  {
    assert ChargeBalanced(next, c);
  }

  lemma PassServesItsOwn(db: Db, next: Db, student: int, enrollment: Option<nat>, d: nat)
    requires WalletPass(db, next, student, OpenCharges(db, student, enrollment), None) && Gains(db, next, d)
    ensures d < |db.charges| && db.charges[d].student == student
    ensures enrollment.Some? ==> db.charges[d].enrollment == enrollment.value
  {
    hide ApplyCredit, CreditEntries, OpenCharges, Payees, Payers, ActiveOn;
    IntegrityHasRows(db);
    CreditEntriesPay(db, student);
    OthersGainNothing(db, student, CreditEntries(db, student), OpenCharges(db, student, enrollment), None, d);
    ListedAreOpen(db, student, enrollment, d);
  }

  // ---------------------------------------------------------------------------
  // The student's credit
  // ---------------------------------------------------------------------------

  lemma ChargePass(db: Db, op: Operation) returns (limit: Option<int>)
    requires Good(db) && op.Allocate? && ErrorOf(db, op).None?
    ensures WalletPass(db, Next(db, op), op.student, [op.charge], limit)
  {
    hide ApplyCredit, CreditEntries, Integrity, Wallet, ActiveOn;
    limit := Some(CreditAmount(db, op.student, Remaining(db, op.charge), op.requested));
  }

  /** Whatever wallet credit is applied, it is taken from the student's payments and
      adjustments by date, then id: none gives before an older one is used up. */
  lemma {:induction false} CreditTakenOldestFirst(db: Db, op: Operation, a: nat, b: nat)
    requires Good(db) && (op.Allocate? || op.AllocateCourse? || op.AutoAllocate?)
    requires a < |db.entries| && b < |db.entries| && Older(db, a, b) && Gives(db, Next(db, op), b)
    requires db.entries[a].student == op.student && IsCredit(db.entries[a]) && !Voided(db.entries, a)
    ensures Next(db, op).entries == db.entries && Available(Next(db, op), a) == 0
  {
    hide Next, ErrorOf, Payees, Integrity, OpenCharges, CourseCharges, Consumed, AfterPreferred, ApplyCredit;
    var next := Next(db, op);
    if ErrorOf(db, op).Some? {
      RefusedStays(db, op);
    } else if op.Allocate? {
      var limit := ChargePass(db, op);
      PassTakesOldestFirst(db, next, op.student, [op.charge], limit, a, b);
      PassKeeps(db, next, op.student, [op.charge], limit);
    } else if op.AllocateCourse? {
      var charges := CourseCharges(db, op.student, op.enrollment);
      var limit := Some(CourseCreditAmount(db, op.student, op.enrollment, op.requested));
      CoursePass(db, op);
      PassTakesOldestFirst(db, next, op.student, charges, limit, a, b);
      PassKeeps(db, next, op.student, charges, limit);
    } else {
      AutoTakesOldestFirst(db, op, a, b);
    }
  }

  lemma RefusedStays(db: Db, op: Operation)
    requires ErrorOf(db, op).Some?
    ensures Next(db, op) == db
  {
  }

  lemma {:induction false} AutoTakesOldestFirst(db: Db, op: Operation, a: nat, b: nat)
    requires Good(db) && op.AutoAllocate?
    requires a < |db.entries| && b < |db.entries| && Older(db, a, b) && Gives(db, Next(db, op), b)
    requires LiveCredit(db.entries, op.student, a)
    ensures Next(db, op).entries == db.entries && Available(Next(db, op), a) == 0
  {
    hide Next, Payees, Integrity, OpenCharges, Consumed, AfterPreferred, ApplyCredit;
    var first := AutoPasses(db, op);
    var next := Next(db, op);
    PassKeeps(first, next, op.student, OpenCharges(first, op.student, None), None);
    if op.preferred.Some? {
      var charges := OpenCharges(db, op.student, op.preferred);
      PassKeeps(db, first, op.student, charges, None);
      if Gives(db, first, b) {
        PassTakesOldestFirst(db, first, op.student, charges, None, a, b);
        UsedUpStays(first, next, a);
      }
    }
    if Gives(first, next, b) {
      PassTakesOldestFirst(first, next, op.student, OpenCharges(first, op.student, None), None, a, b);
    }
  }

  lemma UsedUpStays(db: Db, next: Db, a: nat)
    requires Integrity(next) && a < |db.entries| && next.entries == db.entries
    requires Available(db, a) == 0 && Consumed(db, a) <= Consumed(next, a)
    ensures Available(next, a) == 0
  {
    assert EntryCovered(next, a);
  }

  // ---------------------------------------------------------------------------
  // Payments
  // ---------------------------------------------------------------------------

  lemma {:induction false} NeededGrows(db: Db, charges: seq<nat>, i: nat, j: nat, enrollment: nat)
    requires i <= j <= |charges|
    ensures NeededBefore(db, charges, i, enrollment) <= NeededBefore(db, charges, j, enrollment)
  {
    hide Need;
    if i < j {
      NeededGrows(db, charges, i, j - 1, enrollment);
      PaymentRowsStep(db, 0, [], charges, j, enrollment);
    }
  }

  /** Of two charges of one enrollment on the list of a payment, the later one has a share
      only when the earlier one's covers its need. */
  lemma SharesInOrder(db: Db, portions: seq<Portion>, charges: seq<nat>, i: nat, j: nat)
    requires i < j < |charges| && EnrollmentOf(db, charges[i]) == EnrollmentOf(db, charges[j])
    requires 0 < Share(db, portions, charges, j)
    ensures Share(db, portions, charges, i) == Need(db, charges[i])
  {
    hide Need, NeededBefore;
    var enrollment := EnrollmentOf(db, charges[i]);
    PaymentRowsStep(db, 0, portions, charges, i + 1, enrollment);
    NeededGrows(db, charges, i + 1, j, enrollment);
  }

  /** What an accepted payment adds to a charge. */
  lemma {:induction false} PaymentGain(db: Db, op: Operation, c: nat) returns (portions: seq<Portion>, paid: Db)
    requires Good(db) && op.Pay? && ErrorOf(db, op).None? && c < |db.charges|
    ensures paid == AddEntry(db, PaymentEntry(db, op.student, op.paid, op.at, op.recorder)) && Integrity(paid)
    ensures var cs := TargetCharges(paid, EnrollmentsOf(portions));
      && (c !in cs ==> ActiveOn(Next(db, op), c) == ActiveOn(db, c))
      && (forall j :: 0 <= j < |cs| && cs[j] == c ==>
           ActiveOn(Next(db, op), c) == ActiveOn(db, c) + Share(paid, portions, cs, j))
    ensures portions == PaymentCheck(db, op.student, op.course, op.targets, op.paid, op.at).value
  {
    hide PaymentRows, TargetCharges, Integrity, Share, PaymentCheck, ActiveOn, Accepted, Restated, OnCharge;
    portions := PaymentCheck(db, op.student, op.course, op.targets, op.paid, op.at).value;
    paid := AddEntry(db, PaymentEntry(db, op.student, op.paid, op.at, op.recorder));
    CheckedIsAccepted(db, op.student, op.course, op.targets, op.paid, op.at);
    PaymentSpendable(db, op.student, portions, op.paid, op.at, op.recorder);
    var cs, rows := TargetCharges(paid, EnrollmentsOf(portions)), RowsForPayment(paid, |db.entries|, portions);
    TargetChargesSelected(paid, EnrollmentsOf(portions));
    SpendSums(paid, rows);
    SameActive(db, paid, c);
    SameActive(Spend(paid, rows), Next(db, op), c);
    forall j | 0 <= j < |cs| && cs[j] == c ensures Sum(rows, OnCharge(c)) == Share(paid, portions, cs, j) {
      PaymentRowsByCharge(paid, |db.entries|, portions, cs, |cs|, j);
    }
    if c !in cs { UnlistedGainsNothing(paid, |db.entries|, portions, cs, c); }
  }

  lemma UnlistedGainsNothing(db: Db, entry: nat, portions: seq<Portion>, charges: seq<nat>, c: nat)
    requires c !in charges
    ensures Sum(PaymentRows(db, entry, portions, charges, |charges|), OnCharge(c)) == 0
  {
    var rows := PaymentRows(db, entry, portions, charges, |charges|);
    forall k | 0 <= k < |rows| ensures OnCharge(c)(rows[k]) == 0 {
      PaymentRowShape(db, entry, portions, charges, |charges|, k);
    }
    SumZero(rows, OnCharge(c));
  }

  /** A payment settles the charges of an enrollment by due date, sequence number and id:
      a later one gains something only when the earlier one ends settled. */
  lemma {:induction false} PaymentInOrder(db: Db, op: Operation, c: nat, d: nat)
    requires Good(db) && op.Pay? && ErrorOf(db, op).None?
    requires c < |db.charges| && d < |db.charges| && DueBefore(db, c, d) && Gains(db, Next(db, op), d)
    requires db.charges[c].enrollment == db.charges[d].enrollment && db.charges[c].status != Cancelled
    ensures |Next(db, op).charges| == |db.charges| && InFull(Next(db, op), c)
  {
    hide TargetCharges, Integrity, Share, ActiveOn, Next, Selects, EnrollmentsOf, ErrorOf;
    var portions, paid := PaymentGain(db, op, d);
    var again, same := PaymentGain(db, op, c);
    var cs := TargetCharges(paid, EnrollmentsOf(portions));
    PaymentKeepsRows(db, op, c);
    TargetChargesSelected(paid, EnrollmentsOf(portions));
    TargetIsOpen(paid, EnrollmentsOf(portions), d);
    if paid.charges[c].status == Open {
      var i, j := Positions(cs, |paid.charges|, IsOpenOf(paid, EnrollmentsOf(portions)), InstallmentKey(paid), c, d);
      SharesInOrder(paid, portions, cs, i, j);
    } else if c in cs {
      TargetIsOpen(paid, EnrollmentsOf(portions), c);
    }
  }

  lemma TargetIsOpen(db: Db, enrollments: set<nat>, d: nat)
    requires d in TargetCharges(db, enrollments)
    ensures d < |db.charges| && IsOpenOf(db, enrollments)(d)
  {
    TargetChargesSelected(db, enrollments);
  }

  /** A payment re-prices no charge, and a charge that was settled stays so. */
  lemma PaymentKeepsRows(db: Db, op: Operation, c: nat)
    requires Good(db) && op.Pay? && ErrorOf(db, op).None? && c < |db.charges|
    ensures |Next(db, op).charges| == |db.charges| && Next(db, op).charges[c].amount == db.charges[c].amount
    ensures ActiveOn(db, c) <= db.charges[c].amount
    ensures var paid := AddEntry(db, PaymentEntry(db, op.student, op.paid, op.at, op.recorder));
      Need(paid, c) == db.charges[c].amount - ActiveOn(db, c)
    ensures db.charges[c].status == Settled ==> InFull(db, c)
  {
    hide PaymentCheck, RowsForPayment, ActiveOn;
    var paid := AddEntry(db, PaymentEntry(db, op.student, op.paid, op.at, op.recorder));
    SameActive(db, paid, c);
    assert ChargeBalanced(db, c);
  }
}
