/**
 Two requests for different students that run at the same time: what one writes on the
 tables it read is, moved behind what the other committed, what it would have written
 after the other.
 */
module Merging {
  import opened Wrappers
  import opened Sums
  import opened Calendar
  import opened Tables
  import opened Balances
  import opened Posting
  import opened Queries
  import opened Crediting
  import opened Payments
  import opened Concessions
  import opened Operations
  import Ordering
  import Waterfall
  import Withdrawals

  // ---------------------------------------------------------------------------
  // Moving rows behind others
  // ---------------------------------------------------------------------------

  /** An entry's id among the rows of `current`, where those from |base| on are new. */
  function MovedId(id: nat, base: nat, current: nat): nat {
    if id < base then id else id - base + current
  }

  function MovedEntry(e: Entry, base: Db, current: Db): Entry {
    e.(id := MovedId(e.id, |base.entries|, |current.entries|))
  }

  function MovedAllocation(a: Allocation, base: Db, current: Db): Allocation {
    a.(id := MovedId(a.id, |base.allocations|, |current.allocations|),
       entry := MovedId(a.entry, |base.entries|, |current.entries|))
  }

  function MovedTarget(t: Target, base: Db, current: Db): Target {
    t.(entry := MovedId(t.entry, |base.entries|, |current.entries|))
  }

  function MovedRows(rows: seq<Allocation>, base: Db, current: Db): seq<Allocation> {
    seq(|rows|, i requires 0 <= i < |rows| => MovedAllocation(rows[i], base, current))
  }

  function MovedEntries(entries: seq<Entry>, base: Db, current: Db): seq<Entry> {
    seq(|entries|, i requires 0 <= i < |entries| => MovedEntry(entries[i], base, current))
  }

  function MovedTargets(targets: seq<Target>, base: Db, current: Db): seq<Target> {
    seq(|targets|, i requires 0 <= i < |targets| => MovedTarget(targets[i], base, current))
  }

  /** `current` with what `own` added to `base`, and the charges it changed. */
  function Rebase(current: Db, base: Db, own: Db): Db {
    if !(|base.entries| <= |own.entries| && |base.allocations| <= |own.allocations| && |base.targets| <= |own.targets|)
      then current
    else
      var entries, rows, targets := own.entries[|base.entries|..], own.allocations[|base.allocations|..],
        own.targets[|base.targets|..];
      current.(
        entries := current.entries + MovedEntries(entries, base, current),
        allocations := current.allocations + MovedRows(rows, base, current),
        targets := current.targets + MovedTargets(targets, base, current),
        charges := seq(|current.charges|, c requires 0 <= c < |current.charges| =>
          if c < |base.charges| && c < |own.charges| && own.charges[c] != base.charges[c] then own.charges[c]
            else current.charges[c]))
  }

  // ---------------------------------------------------------------------------
  // Tables that differ in what others did
  // ---------------------------------------------------------------------------

  predicate RowOfOther(db: Db, i: nat, student: int)
    requires i < |db.allocations|
  {
    var a := db.allocations[i];
    && a.charge < |db.charges| && db.charges[a.charge].student != student
    && a.entry < |db.entries| && db.entries[a.entry].student != student
  }

  /** `next` is `db` with further payments and allocations of other students. */
  ghost predicate SameFor(db: Db, next: Db, student: int) {
    && next.courses == db.courses && next.enrollments == db.enrollments && next.periods == db.periods
    && |next.charges| == |db.charges|
    && (forall c :: 0 <= c < |db.charges| ==>
          && next.charges[c] == db.charges[c].(status := next.charges[c].status)
          && (db.charges[c].student == student ==> next.charges[c] == db.charges[c]))
    && db.entries <= next.entries && db.allocations <= next.allocations && db.targets <= next.targets
    && (forall e :: |db.entries| <= e < |next.entries| ==>
          next.entries[e].student != student && next.entries[e].kind == Payment && next.entries[e].reverses.None?)
    && (forall i :: |db.allocations| <= i < |next.allocations| ==> RowOfOther(next, i, student))
  }

  lemma SameForSelf(db: Db, student: int)
    ensures SameFor(db, db, student)
  {
  }

  lemma SameForTransitive(a: Db, b: Db, c: Db, student: int)
    requires SameFor(a, b, student) && SameFor(b, c, student)
    ensures SameFor(a, c, student)
  {
    forall i | |a.allocations| <= i < |c.allocations| ensures RowOfOther(c, i, student) {
      if i < |b.allocations| { assert RowOfOther(b, i, student) && c.allocations[i] == b.allocations[i]; }
    }
  }

  lemma ActiveSame(db: Db, next: Db, student: int, c: nat)
    requires SameFor(db, next, student) && c < |db.charges| && db.charges[c].student == student
    ensures ActiveOn(next, c) == ActiveOn(db, c)
  {
    var n := |db.allocations|;
    var added := next.allocations[n..];
    assert next.allocations == db.allocations + added;
    SumConcat(db.allocations, added, OnCharge(c));
    forall i | 0 <= i < |added| ensures OnCharge(c)(added[i]) == 0 { assert RowOfOther(next, n + i, student); }
    SumZero(added, OnCharge(c));
  }

  lemma VoidedSame(db: Db, next: Db, student: int, e: nat)
    requires SameFor(db, next, student)
    ensures Voided(next.entries, e) <==> Voided(db.entries, e)
  {
    if Voided(db.entries, e) {
      var k :| 0 <= k < |db.entries| && db.entries[k].kind == Void && db.entries[k].reverses == Some(e);
      assert next.entries[k] == db.entries[k];
    }
    if Voided(next.entries, e) {
      var k :| 0 <= k < |next.entries| && next.entries[k].kind == Void && next.entries[k].reverses == Some(e);
      assert next.entries[k] == db.entries[k];
    }
  }

  lemma ConsumedSame(db: Db, next: Db, student: int, e: nat)
    requires RowsOk(db) && SameFor(db, next, student) && e < |db.entries| && db.entries[e].student == student
    ensures Consumed(next, e) == Consumed(db, e)
  {
    var n := |db.allocations|;
    var added := next.allocations[n..];
    assert next.allocations == db.allocations + added;
    SumConcat(db.allocations, added, ConsumedOf(next.entries, e));
    forall i | 0 <= i < |added|
      ensures ConsumedOf(next.entries, e)(added[i]) == 0
    {
      assert RowOfOther(next, n + i, student);
    }
    SumZero(added, ConsumedOf(next.entries, e));
    forall i | 0 <= i < n
      ensures ConsumedOf(next.entries, e)(db.allocations[i]) == ConsumedOf(db.entries, e)(db.allocations[i])
    {
      assert AllocationRowOk(db, i);
      assert Consumes(next.entries, db.allocations[i]) == Consumes(db.entries, db.allocations[i]);
    }
    SumAgree(db.allocations, ConsumedOf(next.entries, e), ConsumedOf(db.entries, e));
  }

  lemma AvailableSame(db: Db, next: Db, student: int, e: nat)
    requires RowsOk(db) && SameFor(db, next, student) && e < |db.entries| && db.entries[e].student == student
    ensures Available(next, e) == Available(db, e)
  {
    hide Consumed;
    ConsumedSame(db, next, student, e);
    var added := next.entries[|db.entries|..];
    assert next.entries == db.entries + added;
    SumConcat(db.entries, added, CashOutOf(e));
    SumZero(added, CashOutOf(e));
  }

  lemma LiveCreditSame(db: Db, next: Db, student: int, e: nat)
    requires SameFor(db, next, student)
    ensures LiveCredit(next.entries, student, e) <==> LiveCredit(db.entries, student, e)
  {
    VoidedSame(db, next, student, e);
  }

  lemma AvailableForSame(db: Db, next: Db, student: int, i: nat)
    requires RowsOk(db) && RowsOk(next) && SameFor(db, next, student) && i < |next.entries|
    ensures AvailableFor(next, student)(next.entries[i])
      == if i < |db.entries| then AvailableFor(db, student)(db.entries[i]) else 0
  {
    hide Available, LiveCredit;
    assert EntryRowOk(next, i);
    if i < |db.entries| {
      assert next.entries[i] == db.entries[i];
      LiveCreditSame(db, next, student, i);
      if LiveCredit(db.entries, student, i) {
        LiveCreditIsOwn(db, student, i);
        AvailableSame(db, next, student, i);
      }
    } else {
      NotLive(next, student, i);
      assert !LiveCredit(next.entries, student, i);
    }
  }

  lemma LiveCreditIsOwn(db: Db, student: int, e: nat)
    requires LiveCredit(db.entries, student, e)
    ensures e < |db.entries| && db.entries[e].student == student
  {
  }

  lemma NotLive(db: Db, student: int, e: nat)
    requires e < |db.entries| && db.entries[e].student != student
    ensures !IsLiveCredit(db, student)(e) && !LiveCredit(db.entries, student, e)
  {
    assert !LiveCredit(db.entries, student, e);
  }

  lemma WalletSame(db: Db, next: Db, student: int)
    requires Integrity(db) && Integrity(next) && SameFor(db, next, student)
    ensures Wallet(next, student) == Wallet(db, student)
  {
    hide Integrity, Available, AvailableFor, Wallet, NetCredit, RowsOk;
    WalletIsSumOfAvailable(db, student);
    WalletIsSumOfAvailable(next, student);
    IntegrityHasRows(db);
    IntegrityHasRows(next);
    var n := |db.entries|;
    var added := next.entries[n..];
    assert next.entries == db.entries + added;
    SumConcat(db.entries, added, AvailableFor(next, student));
    forall i | 0 <= i < |added|
      ensures AvailableFor(next, student)(added[i]) == 0
    {
      AvailableForSame(db, next, student, n + i);
    }
    SumZero(added, AvailableFor(next, student));
    forall i | 0 <= i < n
      ensures AvailableFor(next, student)(db.entries[i]) == AvailableFor(db, student)(db.entries[i])
    {
      AvailableForSame(db, next, student, i);
    }
    SumAgree(db.entries, AvailableFor(next, student), AvailableFor(db, student));
  }

  lemma CreditEntriesSame(db: Db, next: Db, student: int)
    requires SameFor(db, next, student)
    ensures CreditEntries(next, student) == CreditEntries(db, student)
  {
    hide LiveCredit;
    forall i: nat
      ensures IsLiveCredit(next, student)(i) == IsLiveCredit(db, student)(i)
    {
      LiveCreditSame(db, next, student, i);
    }
    forall i: nat | |db.entries| <= i < |next.entries|
      ensures !IsLiveCredit(next, student)(i)
    {
      NotLive(next, student, i);
    }
    Ordering.MatchingSame(|db.entries|, IsLiveCredit(db, student), EntryKey(db), |next.entries|,
      IsLiveCredit(next, student), EntryKey(next));
  }

  /** The enrollments belong to the student. */
  ghost predicate Own(db: Db, student: int, enrollments: set<nat>) {
    forall e :: e in enrollments ==> e < |db.enrollments| && db.enrollments[e].student == student
  }

  lemma TargetChargesSame(db: Db, next: Db, student: int, enrollments: set<nat>)
    requires RowsOk(db) && SameFor(db, next, student) && Own(db, student, enrollments)
    ensures TargetCharges(next, enrollments) == TargetCharges(db, enrollments)
  {
    forall c: nat | c < |db.charges|
      ensures IsOpenOf(next, enrollments)(c) == IsOpenOf(db, enrollments)(c)
      ensures InstallmentKey(next)(c) == InstallmentKey(db)(c)
    {
      assert ChargeRowOk(db, c);
    }
    Ordering.MatchingSame(|db.charges|, IsOpenOf(db, enrollments), InstallmentKey(db), |next.charges|,
      IsOpenOf(next, enrollments), InstallmentKey(next));
  }

  lemma CourseChargesSame(db: Db, next: Db, student: int, enrollment: nat)
    requires SameFor(db, next, student)
    ensures CourseCharges(next, student, enrollment) == CourseCharges(db, student, enrollment)
  {
    Ordering.MatchingSame(|db.charges|, IsLiveFor(db, student, enrollment), DueKey(db),
      |next.charges|, IsLiveFor(next, student, enrollment), DueKey(next));
  }

  lemma NeedSame(db: Db, next: Db, student: int, c: nat)
    requires SameFor(db, next, student) && c < |db.charges| && db.charges[c].student == student
    ensures Need(next, c) == Need(db, c) && Remaining(next, c) == Remaining(db, c)
  {
    ActiveSame(db, next, student, c);
  }

  lemma OpenBalanceSame(db: Db, next: Db, student: int, enrollment: nat)
    requires RowsOk(db) && SameFor(db, next, student) && enrollment < |db.enrollments|
    requires db.enrollments[enrollment].student == student
    ensures OpenBalance(next, enrollment) == OpenBalance(db, enrollment)
  {
    hide ActiveOn;
    forall i | 0 <= i < |db.charges|
      ensures OpenNeed(next, enrollment)(next.charges[i]) == OpenNeed(db, enrollment)(db.charges[i])
    {
      assert ChargeRowOk(db, i);
      if db.charges[i].enrollment == enrollment { ActiveSame(db, next, student, i); }
    }
    SumMapped(next.charges, db.charges, OpenNeed(next, enrollment), OpenNeed(db, enrollment));
  }

  // ---------------------------------------------------------------------------
  // The same checks
  // ---------------------------------------------------------------------------

  lemma {:induction false} FoundSame(db: Db, next: Db, student: int, course: nat, from: nat)
    requires next.enrollments == db.enrollments
    ensures FindEnrollment(next, student, course, from) == FindEnrollment(db, student, course, from)
    decreases |db.enrollments| - from
  {
    if from < |db.enrollments| { FoundSame(db, next, student, course, from + 1); }
  }

  lemma {:induction false} TargetErrorSame(db: Db, next: Db, student: int, portions: seq<Portion>)
    requires RowsOk(db) && SameFor(db, next, student)
    ensures FirstTargetError(next, student, portions) == FirstTargetError(db, student, portions)
  {
    hide OpenBalance, RowsOk, SameFor;
    if portions != [] {
      SameEnrollments(db, next, student);
      if Payable(db, student, portions[0].enrollment) { OpenBalanceSame(db, next, student, portions[0].enrollment); }
      TargetErrorSame(db, next, student, portions[1..]);
    }
  }

  lemma SameEnrollments(db: Db, next: Db, student: int)
    requires SameFor(db, next, student)
    ensures next.enrollments == db.enrollments && next.periods == db.periods
  {
  }

  lemma PaymentCheckSame(db: Db, next: Db, student: int, course: nat, targets: Option<seq<Portion>>, paid: int, at: nat)
    requires RowsOk(db) && SameFor(db, next, student)
    ensures PaymentCheck(next, student, course, targets, paid, at)
      == PaymentCheck(db, student, course, targets, paid, at)
  {
    hide OpenBalance, RowsOk, SameFor, FirstTargetError, PeriodKey;
    SameEnrollments(db, next, student);
    FoundSame(db, next, student, course, 0);
    forall portions: seq<Portion>
      ensures FirstTargetError(next, student, portions) == FirstTargetError(db, student, portions)
    {
      TargetErrorSame(db, next, student, portions);
    }
  }

  lemma ListBalanceSame(db: Db, next: Db, student: int, charges: seq<nat>)
    requires SameFor(db, next, student) && Payees(db, charges, student)
    ensures ListBalance(next, charges) == ListBalance(db, charges)
  {
    forall j | 0 <= j < |charges| ensures PriceIn(next)(charges[j]) == PriceIn(db)(charges[j]) {}
    SumAgree(charges, PriceIn(next), PriceIn(db));
    var n := |db.allocations|;
    var added := next.allocations[n..];
    assert next.allocations == db.allocations + added;
    SumConcat(db.allocations, added, OnAnyOf(charges));
    forall i | 0 <= i < |added| ensures OnAnyOf(charges)(added[i]) == 0 { assert RowOfOther(next, n + i, student); }
    SumZero(added, OnAnyOf(charges));
  }

  lemma CourseCreditSame(db: Db, next: Db, student: int, enrollment: nat, requested: Option<Money>)
    requires Integrity(db) && Integrity(next) && SameFor(db, next, student)
    ensures CourseCreditError(next, student, enrollment, requested)
      == CourseCreditError(db, student, enrollment, requested)
    ensures CourseCreditAmount(next, student, enrollment, requested)
      == CourseCreditAmount(db, student, enrollment, requested)
  {
    hide Integrity, SameFor, CourseCharges, Wallet, ListBalance;
    SameEnrollments(db, next, student);
    WalletSame(db, next, student);
    CourseChargesSame(db, next, student, enrollment);
    CourseChargesTake(db, student, enrollment);
    ListBalanceSame(db, next, student, CourseCharges(db, student, enrollment));
  }

  // ---------------------------------------------------------------------------
  // The same rows
  // ---------------------------------------------------------------------------

  lemma TargetsOfEntry(db: Db, e: Entry, enrollments: set<nat>)
    ensures TargetCharges(AddEntry(db, e), enrollments) == TargetCharges(db, enrollments)
  {
    var next := AddEntry(db, e);
    Ordering.MatchingSame(|db.charges|, IsOpenOf(db, enrollments), InstallmentKey(db), |db.charges|,
      IsOpenOf(next, enrollments), InstallmentKey(next));
  }

  /** The shares of a payment do not depend on what others did. */
  lemma ShareSame(db: Db, next: Db, paid: Db, nextPaid: Db, student: int, portions: seq<Portion>, charges: seq<nat>,
                  k: nat)
    requires SameFor(db, next, student) && Payees(db, charges, student) && k < |charges|
    requires paid.charges == db.charges && paid.allocations == db.allocations
    requires nextPaid.charges == next.charges && nextPaid.allocations == next.allocations
    ensures Share(nextPaid, portions, charges, k) == Share(paid, portions, charges, k)
  {
    hide SameFor, ActiveOn;
    forall j | 0 <= j < |charges|
      ensures Need(nextPaid, charges[j]) == Need(paid, charges[j])
      ensures EnrollmentOf(nextPaid, charges[j]) == EnrollmentOf(paid, charges[j])
    {
      NeedSame(db, next, student, charges[j]);
      SameAmounts(db, next, student, charges[j]);
      SameActive(db, paid, charges[j]);
      SameActive(next, nextPaid, charges[j]);
    }
    var enrollment := EnrollmentOf(paid, charges[k]);
    SumAgree(charges[..k], NeedFor(nextPaid, enrollment), NeedFor(paid, enrollment));
  }

  lemma SameAmounts(db: Db, next: Db, student: int, c: nat)
    requires SameFor(db, next, student) && c < |db.charges| && db.charges[c].student == student
    ensures c < |next.charges| && next.charges[c] == db.charges[c]
  {
  }

  lemma {:induction false} PaymentRowsMoved(db: Db, next: Db, paid: Db, nextPaid: Db, student: int,
                                            portions: seq<Portion>, charges: seq<nat>, k: nat)
    requires SameFor(db, next, student) && Payees(db, charges, student) && k <= |charges|
    requires paid.charges == db.charges && paid.allocations == db.allocations
    requires nextPaid.charges == next.charges && nextPaid.allocations == next.allocations
    ensures PaymentRows(nextPaid, |next.entries|, portions, charges, k)
         == MovedRows(PaymentRows(paid, |db.entries|, portions, charges, k), db, next)
  {
    hide SameFor, Payees, Share;
    if 0 < k {
      PaymentRowsMoved(db, next, paid, nextPaid, student, portions, charges, k - 1);
      ShareSame(db, next, paid, nextPaid, student, portions, charges, k - 1);
    }
  }

  lemma CreditRowsMoved(db: Db, next: Db, student: int, entries: seq<nat>, charges: seq<nat>, limit: Option<int>)
    requires RowsOk(db) && SameFor(db, next, student) && Payers(db, entries, student) && Payees(db, charges, student)
    ensures CreditRows(next, entries, charges, limit) == MovedRows(CreditRows(db, entries, charges, limit), db, next)
  {
    hide Available, Remaining, Waterfall.Pour, RowsOk;
    forall i | 0 <= i < |entries| ensures Usable(next, entries[i]) == Usable(db, entries[i]) {
      AvailableSame(db, next, student, entries[i]);
    }
    assert UsableOf(next, entries) == UsableOf(db, entries);
    forall j | 0 <= j < |charges|
      ensures Need(next, charges[j]) == Need(db, charges[j])
    {
      NeedSame(db, next, student, charges[j]);
    }
    assert NeedsOf(next, charges) == NeedsOf(db, charges);
    var slices := CreditSlices(db, entries, charges, limit);
    PlacedFits(db, entries, charges, limit);
  }

  // ---------------------------------------------------------------------------
  // The same tables
  // ---------------------------------------------------------------------------

  /** New entries, rows and targets at once, with every status recomputed. */
  function Posted(db: Db, entries: seq<Entry>, rows: seq<Allocation>, targets: seq<Target>): Db {
    Spend(db.(entries := db.entries + entries), rows).(targets := db.targets + targets)
  }

  /** The rows settle charges of the student. */
  ghost predicate SettlesOf(db: Db, rows: seq<Allocation>, student: int) {
    forall k :: 0 <= k < |rows| ==> rows[k].charge < |db.charges| && db.charges[rows[k].charge].student == student
  }

  /** What a batch does to the charges: those of its student take their new status, the
      others stay. */
  lemma PostedCharge(db: Db, entries: seq<Entry>, rows: seq<Allocation>, targets: seq<Target>, student: int, c: nat)
    requires Integrity(db) && SettlesOf(db, rows, student) && c < |db.charges|
    ensures var next := Posted(db, entries, rows, targets);
      && |next.charges| == |db.charges|
      && ActiveOn(next, c) == ActiveOn(db, c) + Sum(rows, OnCharge(c))
      && next.charges[c] == db.charges[c].(status :=
           if db.charges[c].status == Cancelled then Cancelled
           else if ActiveOn(db, c) + Sum(rows, OnCharge(c)) >= db.charges[c].amount then Settled else Open)
      && (db.charges[c].student != student ==> next.charges[c] == db.charges[c])
  {
    SumConcat(db.allocations, rows, OnCharge(c));
    assert ChargeRowOk(db, c) && ChargeBalanced(db, c);
    if db.charges[c].student != student { SumZero(rows, OnCharge(c)); }
  }

  lemma RebasedCharge(base: Db, next: Db, student: int, entries: seq<Entry>, rows: seq<Allocation>,
                      targets: seq<Target>, c: nat)
    requires Integrity(base) && Integrity(next) && SameFor(base, next, student) && SettlesOf(base, rows, student)
    requires c < |base.charges|
    ensures var own, late := Posted(base, entries, rows, targets),
                             Posted(next, MovedEntries(entries, base, next), MovedRows(rows, base, next),
                               MovedTargets(targets, base, next));
      && c < |own.charges| == |base.charges| && |late.charges| == |next.charges| == |base.charges|
      && late.charges[c] == if own.charges[c] != base.charges[c] then own.charges[c] else next.charges[c]
  {
    hide Integrity, StatusFor, ActiveOn, Posted;
    var moved := MovedRows(rows, base, next);
    PostedCharge(base, entries, rows, targets, student, c);
    PostedCharge(next, MovedEntries(entries, base, next), moved, MovedTargets(targets, base, next), student, c);
    SumMapped(rows, moved, OnCharge(c), OnCharge(c));
    if base.charges[c].student == student { ActiveSame(base, next, student, c); }
  }

  lemma {:induction false} RebasePosted(base: Db, next: Db, student: int, entries: seq<Entry>, rows: seq<Allocation>,
                                        targets: seq<Target>)
    requires Integrity(base) && Integrity(next) && SameFor(base, next, student) && SettlesOf(base, rows, student)
    ensures Rebase(next, base, Posted(base, entries, rows, targets))
         == Posted(next, MovedEntries(entries, base, next), MovedRows(rows, base, next),
           MovedTargets(targets, base, next))
  {
    hide Integrity, StatusFor, ActiveOn, SettlesOf, RowOfOther, MovedEntries, MovedRows, MovedTargets;
    var own := Posted(base, entries, rows, targets);
    var late := Posted(next, MovedEntries(entries, base, next), MovedRows(rows, base, next),
      MovedTargets(targets, base, next));
    assert own.entries[|base.entries|..] == entries && own.allocations[|base.allocations|..] == rows &&
      own.targets[|base.targets|..] == targets;
    forall c | 0 <= c < |base.charges|
      ensures late.charges[c] == if own.charges[c] != base.charges[c] then own.charges[c] else next.charges[c]
    {
      RebasedCharge(base, next, student, entries, rows, targets, c);
    }
    assert Rebase(next, base, own).charges == late.charges;
  }

  // ---------------------------------------------------------------------------
  // The two requests
  // ---------------------------------------------------------------------------

  predicate Idempotent(op: Operation) { op.Pay? || op.AllocateCourse? }

  lemma PaymentPosted(db: Db, student: int, portions: seq<Portion>, amount: int, at: nat, recorder: int)
    requires Integrity(db) && Accepted(db, student, portions, amount)
    ensures var e := PaymentEntry(db, student, amount, at, recorder);
      var paid := AddEntry(db, e);
      var rows := PaymentRows(paid, |db.entries|, portions, TargetCharges(db, EnrollmentsOf(portions)),
        |TargetCharges(db, EnrollmentsOf(portions))|);
      && AfterPayment(db, student, portions, amount, at, recorder)
        == Posted(db, [e], rows, TargetRows(|db.entries|, portions))
      && SettlesOf(db, rows, student)
      && Payees(db, TargetCharges(db, EnrollmentsOf(portions)), student)
      && (forall k :: 0 <= k < |rows| ==> rows[k].entry == |db.entries|)
  {
    hide TargetCharges, PaymentRows, Integrity, OpenBalance;
    var e := PaymentEntry(db, student, amount, at, recorder);
    var paid := AddEntry(db, e);
    TargetsOfEntry(db, e, EnrollmentsOf(portions));
    IntegrityHasRows(db);
    var cs := TargetCharges(db, EnrollmentsOf(portions));
    forall j | 0 <= j < |cs|
      ensures cs[j] < |db.charges| && db.charges[cs[j]].student == student && db.charges[cs[j]].status == Open
    {
      AllPayable(db, student, portions, amount);
      TargetChargeIsOpen(db, student, portions, j);
    }
    var rows := PaymentRows(paid, |db.entries|, portions, cs, |cs|);
    forall k | 0 <= k < |rows|
      ensures rows[k].entry == |db.entries| && rows[k].charge in cs
    {
      PaymentRowShape(paid, |db.entries|, portions, cs, |cs|, k);
    }
  }

  lemma AllPayable(db: Db, student: int, portions: seq<Portion>, amount: int)
    requires Accepted(db, student, portions, amount)
    ensures forall i :: 0 <= i < |portions| ==> Payable(db, student, portions[i].enrollment)
    ensures Own(db, student, EnrollmentsOf(portions))
  {
    hide OpenBalance;
    forall i | 0 <= i < |portions|
      ensures Payable(db, student, portions[i].enrollment)
    {
      assert TargetError(db, student, portions[i]).None?;
    }
  }

  lemma {:induction false} PaymentRebased(base: Db, next: Db, student: int, portions: seq<Portion>, amount: int,
                                          at: nat, recorder: int)
    requires Integrity(base) && Integrity(next) && SameFor(base, next, student)
    requires Accepted(base, student, portions, amount) && Accepted(next, student, portions, amount)
    ensures Rebase(next, base, AfterPayment(base, student, portions, amount, at, recorder))
         == AfterPayment(next, student, portions, amount, at, recorder)
  {
    hide Integrity, SameFor, Rebase, Posted, AfterPayment, Accepted, TargetCharges, PaymentRows, Payees;
    var e, late := PaymentEntry(base, student, amount, at, recorder), PaymentEntry(next, student, amount, at, recorder);
    var cs := TargetCharges(base, EnrollmentsOf(portions));
    PaymentPosted(base, student, portions, amount, at, recorder);
    PaymentPosted(next, student, portions, amount, at, recorder);
    AllPayable(base, student, portions, amount);
    IntegrityHasRows(base);
    TargetChargesSame(base, next, student, EnrollmentsOf(portions));
    PaymentRowsMoved(base, next, AddEntry(base, e), AddEntry(next, late), student, portions, cs, |cs|);
    var rows := PaymentRows(AddEntry(base, e), |base.entries|, portions, cs, |cs|);
    RebasePosted(base, next, student, [e], rows, TargetRows(|base.entries|, portions));
    assert MovedEntries([e], base, next) == [late];
    assert MovedTargets(TargetRows(|base.entries|, portions), base, next) == TargetRows(|next.entries|, portions);
  }

  lemma CreditPosted(db: Db, student: int, enrollment: nat, amount: int)
    requires RowsOk(db)
    ensures var entries, charges := CreditEntries(db, student), CourseCharges(db, student, enrollment);
      var rows := CreditRows(db, entries, charges, Some(amount));
      && AfterCourseCredit(db, student, enrollment, amount) == Posted(db, [], rows, [])
      && Payers(db, entries, student) && Payees(db, charges, student)
      && SettlesOf(db, rows, student)
      && (forall k :: 0 <= k < |rows| ==> rows[k].entry < |db.entries| && db.entries[rows[k].entry].student == student)
  {
    hide CreditEntries, CourseCharges, CreditRows, RowsOk, StatusFor;
    var entries, charges := CreditEntries(db, student), CourseCharges(db, student, enrollment);
    CreditEntriesPay(db, student);
    CourseChargesTake(db, student, enrollment);
    var rows := CreditRows(db, entries, charges, Some(amount));
    forall k | 0 <= k < |rows|
      ensures rows[k].entry in entries && rows[k].charge in charges
    {
      CreditRowFrom(db, entries, charges, Some(amount), k);
    }
    assert db.entries + [] == db.entries && db.targets + [] == db.targets;
    assert db.(entries := db.entries + []) == db;
  }

  lemma {:induction false} CreditRebased(base: Db, next: Db, student: int, enrollment: nat, amount: int)
    requires Integrity(base) && Integrity(next) && SameFor(base, next, student)
    ensures Rebase(next, base, AfterCourseCredit(base, student, enrollment, amount))
      == AfterCourseCredit(next, student, enrollment, amount)
  {
    hide Integrity, SameFor, Rebase, Posted, AfterCourseCredit, CreditEntries, CourseCharges, CreditRows, Payers,
      Payees;
    var entries, charges := CreditEntries(base, student), CourseCharges(base, student, enrollment);
    IntegrityHasRows(base);
    IntegrityHasRows(next);
    CreditPosted(base, student, enrollment, amount);
    CreditPosted(next, student, enrollment, amount);
    CreditEntriesSame(base, next, student);
    CourseChargesSame(base, next, student, enrollment);
    CreditRowsMoved(base, next, student, entries, charges, Some(amount));
    RebasePosted(base, next, student, [], CreditRows(base, entries, charges, Some(amount)), []);
    assert MovedEntries([], base, next) == [] && MovedTargets([], base, next) == [];
  }

  /** What a payment or an allocation of course credit wrote on the tables it read, moved
      behind what other students' requests committed meanwhile, is what it would have
      written after them; and it is turned down then exactly when it is turned down now. */
  lemma {:induction false} RebaseIsNext(base: Db, next: Db, op: Operation)
    requires Good(base) && Good(next) && Idempotent(op) && SameFor(base, next, op.student)
    ensures ErrorOf(next, op) == ErrorOf(base, op)
    ensures ErrorOf(base, op).None? ==> Rebase(next, base, Next(base, op)) == Next(next, op)
  {
    hide SameFor, Rebase, AfterPayment, AfterCourseCredit, Integrity, Withdrawals.Scheduled, PaymentCheck,
      CourseCreditError, CourseCreditAmount, Accepted;
    IntegrityHasRows(base);
    match op {
      case Pay(s, course, targets, paid, at, recorder) =>
        PaymentCheckSame(base, next, s, course, targets, paid, at);
        if ErrorOf(base, op).None? {
          CheckedIsAccepted(base, s, course, targets, paid, at);
          CheckedIsAccepted(next, s, course, targets, paid, at);
          PaymentRebased(base, next, s, PaymentCheck(base, s, course, targets, paid, at).value, paid, at, recorder);
        }
      case AllocateCourse(s, enrollment, requested) =>
        CourseCreditSame(base, next, s, enrollment, requested);
        if ErrorOf(base, op).None? {
          CreditRebased(base, next, s, enrollment, CourseCreditAmount(base, s, enrollment, requested));
        }
    }
  }

  /** Rows that fund from their own student's entries and settle that student's charges
      are nothing to another student. */
  lemma PostedForOthers(db: Db, entries: seq<Entry>, rows: seq<Allocation>, targets: seq<Target>, student: int,
                        other: int)
    requires Integrity(db) && SettlesOf(db, rows, student) && other != student
    requires forall k ::
      0 <= k < |entries| ==> entries[k].student == student && entries[k].kind == Payment && entries[k].reverses.None?
    requires forall k :: 0 <= k < |rows| ==>
      rows[k].entry < |db.entries| + |entries| && (db.entries + entries)[rows[k].entry].student == student
    ensures SameFor(db, Posted(db, entries, rows, targets), other)
  {
    hide Integrity, StatusFor;
    var next := Posted(db, entries, rows, targets);
    forall c | 0 <= c < |db.charges|
      ensures next.charges[c] == db.charges[c].(status := next.charges[c].status)
      ensures db.charges[c].student == other ==> next.charges[c] == db.charges[c]
    {
      PostedCharge(db, entries, rows, targets, student, c);
    }
    forall i | |db.allocations| <= i < |next.allocations| ensures RowOfOther(next, i, other) {
      assert next.allocations[i] == rows[i - |db.allocations|];
    }
  }

  /** A request of another student leaves a student's side of the tables alone. */
  lemma {:induction false} OthersUnaffected(db: Db, op: Operation, student: int)
    requires Good(db) && Idempotent(op) && op.student != student
    ensures SameFor(db, Next(db, op), student)
  {
    hide SameFor, Posted, AfterPayment, AfterCourseCredit, Integrity, Withdrawals.Scheduled, PaymentCheck,
      CourseCreditError, CourseCreditAmount, Accepted,
         PaymentRows, TargetCharges, CreditRows, SettlesOf;
    SameForSelf(db, student);
    IntegrityHasRows(db);
    if ErrorOf(db, op).None? {
      match op {
        case Pay(s, course, targets, paid, at, recorder) =>
          var portions := PaymentCheck(db, s, course, targets, paid, at).value;
          CheckedIsAccepted(db, s, course, targets, paid, at);
          PaymentPosted(db, s, portions, paid, at, recorder);
          var e, cs := PaymentEntry(db, s, paid, at, recorder), TargetCharges(db, EnrollmentsOf(portions));
          PostedForOthers(db, [e], PaymentRows(AddEntry(db, e), |db.entries|, portions, cs, |cs|),
            TargetRows(|db.entries|, portions), s, student);
        case AllocateCourse(s, enrollment, requested) =>
          var amount := CourseCreditAmount(db, s, enrollment, requested);
          CreditPosted(db, s, enrollment, amount);
          PostedForOthers(db, [], CreditRows(db, CreditEntries(db, s), CourseCharges(db, s, enrollment), Some(amount)),
            [], s, student);
      }
    }
  }
}
