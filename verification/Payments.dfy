/**
 `create_payment`: cash received for some of the student's enrollments, allocated at
 once, in full, to the open charges of those enrollments.
 */
module Payments {
  import opened Arithmetic
  import opened Wrappers
  import opened Sums
  import opened Waterfall
  import opened Tables
  import opened Posting
  import opened Queries
  import opened Crediting
  import Calendar

  /** `PaymentTargetInput`. */
  datatype Portion = Portion(enrollment: nat, amount: Money)

  function PortionAmount(): Portion -> int { (p: Portion) => p.amount }

  function EnrollmentsOf(portions: seq<Portion>): set<nat> {
    set i | 0 <= i < |portions| :: portions[i].enrollment
  }

  ghost predicate DistinctTargets(portions: seq<Portion>) {
    forall i, j :: 0 <= i < j < |portions| ==> portions[i].enrollment != portions[j].enrollment
  }

  // ---------------------------------------------------------------------------
  // The split
  // ---------------------------------------------------------------------------

  function EnrollmentOf(db: Db, c: nat): nat {
    if c < |db.charges| then db.charges[c].enrollment else 0
  }

  /** What was targeted at an enrollment. */
  function Targeted(portions: seq<Portion>, enrollment: nat): int {
    if portions == [] then 0
    else if portions[0].enrollment == enrollment then portions[0].amount
    else Targeted(portions[1..], enrollment)
  }

  function NeedFor(db: Db, enrollment: nat): nat -> int {
    (c: nat) => if EnrollmentOf(db, c) == enrollment then Need(db, c) else 0
  }

  /** What the earlier charges of the same enrollment need. */
  function NeededBefore(db: Db, charges: seq<nat>, k: nat, enrollment: nat): int
    requires k <= |charges|
  {
    Sum(charges[..k], NeedFor(db, enrollment))
  }

  /** What charge `k` of the list receives: what is left of its enrollment's portion
      once the earlier charges of that enrollment are settled, up to its own need. */
  function Share(db: Db, portions: seq<Portion>, charges: seq<nat>, k: nat): int
    requires k < |charges|
  {
    var enrollment := EnrollmentOf(db, charges[k]);
    Clip(Targeted(portions, enrollment) - NeededBefore(db, charges, k, enrollment), Need(db, charges[k]))
  }

  function PaymentRows(db: Db, entry: nat, portions: seq<Portion>, charges: seq<nat>, k: nat): seq<Allocation>
    requires k <= |charges|
  {
    if k == 0 then []
    else
      var front := PaymentRows(db, entry, portions, charges, k - 1);
      var share := Share(db, portions, charges, k - 1);
      if share > 0 then front + [Allocation(|db.allocations| + |front|, entry, charges[k - 1], share, None)]
      else front
  }

  lemma {:induction false} TargetedMember(portions: seq<Portion>, i: nat)
    requires DistinctTargets(portions) && i < |portions|
    ensures Targeted(portions, portions[i].enrollment) == portions[i].amount
  {
    if 0 < i {
      TargetedMember(portions[1..], i - 1);
    }
  }

  lemma {:induction false} TargetedNonNegative(portions: seq<Portion>, enrollment: nat)
    ensures 0 <= Targeted(portions, enrollment)
  {
    if portions != [] {
      TargetedNonNegative(portions[1..], enrollment);
    }
  }

  lemma {:induction false} PaymentRowShape(db: Db, entry: nat, portions: seq<Portion>, charges: seq<nat>, k: nat,
                                           i: nat)
    requires k <= |charges| && i < |PaymentRows(db, entry, portions, charges, k)|
    ensures var a := PaymentRows(db, entry, portions, charges, k)[i];
      && a.id == |db.allocations| + i && a.entry == entry && 0 < a.amount && a.reversedBy.None?
      && a.charge in charges[..k]
  {
    var front := PaymentRows(db, entry, portions, charges, k - 1);
    assert charges[..k] == charges[..k - 1] + [charges[k - 1]];
    if i < |front| {
      PaymentRowShape(db, entry, portions, charges, k - 1, i);
    }
  }

  /** Each charge of the list receives its share. */
  lemma {:induction false} PaymentRowsByCharge(db: Db, entry: nat, portions: seq<Portion>, charges: seq<nat>, k: nat,
                                               j: nat)
    requires k <= |charges| && j < |charges| && Distinct(charges)
    ensures Sum(PaymentRows(db, entry, portions, charges, k), OnCharge(charges[j]))
         == if j < k then Share(db, portions, charges, j) else 0
  {
    if 0 < k {
      PaymentRowsByCharge(db, entry, portions, charges, k - 1, j);
      var front := PaymentRows(db, entry, portions, charges, k - 1);
      var share := Share(db, portions, charges, k - 1);
      SumAppend(front, Allocation(|db.allocations| + |front|, entry, charges[k - 1], share, None),
        OnCharge(charges[j]));
    }
  }

  function RowFor(db: Db, enrollment: nat): Allocation -> int {
    (a: Allocation) => if EnrollmentOf(db, a.charge) == enrollment then a.amount else 0
  }

  lemma PaymentRowsStep(db: Db, entry: nat, portions: seq<Portion>, charges: seq<nat>, k: nat, enrollment: nat)
    requires 0 < k <= |charges|
    ensures Sum(PaymentRows(db, entry, portions, charges, k), RowFor(db, enrollment))
         == Sum(PaymentRows(db, entry, portions, charges, k - 1), RowFor(db, enrollment))
            + (if EnrollmentOf(db, charges[k - 1]) == enrollment then Share(db, portions, charges, k - 1) else 0)
    ensures NeededBefore(db, charges, k, enrollment) == NeededBefore(db, charges, k - 1, enrollment)
            + (if EnrollmentOf(db, charges[k - 1]) == enrollment then Need(db, charges[k - 1]) else 0)
  {
    hide Need;
    var front := PaymentRows(db, entry, portions, charges, k - 1);
    var c, share := charges[k - 1], Share(db, portions, charges, k - 1);
    var row := Allocation(|db.allocations| + |front|, entry, c, share, None);
    SumAppend(front, row, RowFor(db, enrollment));
    assert RowFor(db, enrollment)(row) == if EnrollmentOf(db, c) == enrollment then share else 0;
    assert charges[..k] == charges[..k - 1] + [c];
    SumAppend<nat>(charges[..k - 1], c, NeedFor(db, enrollment));
    assert NeedFor(db, enrollment)(c) == if EnrollmentOf(db, c) == enrollment then Need(db, c) else 0;
  }

  /** Together the charges of an enrollment receive its portion, as far as they need it. */
  lemma {:induction false} EnrollmentReceives(db: Db, entry: nat, portions: seq<Portion>, charges: seq<nat>, k: nat,
                                              enrollment: nat)
    requires k <= |charges|
    ensures Sum(PaymentRows(db, entry, portions, charges, k), RowFor(db, enrollment))
         == Min(Targeted(portions, enrollment), NeededBefore(db, charges, k, enrollment))
    ensures 0 <= NeededBefore(db, charges, k, enrollment)
  {
    TargetedNonNegative(portions, enrollment);
    if 0 < k {
      hide Need, Targeted;
      EnrollmentReceives(db, entry, portions, charges, k - 1, enrollment);
      PaymentRowsStep(db, entry, portions, charges, k, enrollment);
    }
  }

  function PortionRow(db: Db): (Portion, Allocation) -> int {
    (p: Portion, a: Allocation) => if EnrollmentOf(db, a.charge) == p.enrollment then a.amount else 0
  }

  /** Every portion is within what its enrollment's charges need. */
  ghost predicate PortionsFit(db: Db, portions: seq<Portion>, charges: seq<nat>) {
    forall i :: 0 <= i < |portions| ==>
      portions[i].amount <= NeededBefore(db, charges, |charges|, portions[i].enrollment)
  }

  /** The whole payment is allocated. */
  lemma {:induction false} PaymentInFull(db: Db, entry: nat, portions: seq<Portion>, charges: seq<nat>)
    requires DistinctTargets(portions) && PortionsFit(db, portions, charges)
    requires forall j :: 0 <= j < |charges| ==> EnrollmentOf(db, charges[j]) in EnrollmentsOf(portions)
    ensures Sum(PaymentRows(db, entry, portions, charges, |charges|), AmountOf()) == Sum(portions, PortionAmount())
  {
    var rows := PaymentRows(db, entry, portions, charges, |charges|);
    var part := PortionRow(db);
    forall k | 0 <= k < |rows| ensures Sum(portions, Column(part, rows[k])) == AmountOf()(rows[k]) {
      PaymentRowShape(db, entry, portions, charges, |charges|, k);
      var enrollment := EnrollmentOf(db, rows[k].charge);
      assert rows[k].charge in charges;
      var i :| 0 <= i < |portions| && portions[i].enrollment == enrollment;
      forall m | 0 <= m < |portions| && m != i ensures Column(part, rows[k])(portions[m]) == 0 {
        assert EnrollmentOf(db, rows[k].charge) != portions[m].enrollment;
      }
      SumSingle(portions, i, Column(part, rows[k]));
      assert part(portions[i], rows[k]) == rows[k].amount;
    }
    SumGrouped(portions, rows, part, AmountOf());
    forall i | 0 <= i < |portions| ensures RowTotals(part, rows)(portions[i]) == PortionAmount()(portions[i]) {
      EnrollmentReceives(db, entry, portions, charges, |charges|, portions[i].enrollment);
      TargetedMember(portions, i);
      forall k | 0 <= k < |rows|
        ensures Row(part, portions[i])(rows[k]) == RowFor(db, portions[i].enrollment)(rows[k])
      {
        assert part(portions[i], rows[k])
          == if EnrollmentOf(db, rows[k].charge) == portions[i].enrollment then rows[k].amount else 0;
      }
      SumAgree(rows, Row(part, portions[i]), RowFor(db, portions[i].enrollment));
    }
    SumAgree(portions, RowTotals(part, rows), PortionAmount());
  }

  // ---------------------------------------------------------------------------
  // What a payment may be
  // ---------------------------------------------------------------------------

  function OpenNeed(db: Db, enrollment: nat): Charge -> int {
    (c: Charge) => if c.enrollment == enrollment && c.status == Open then c.amount - ActiveOn(db, c.id) else 0
  }

  /** What an enrollment's open charges still need. */
  function OpenBalance(db: Db, enrollment: nat): int {
    Sum(db.charges, OpenNeed(db, enrollment))
  }

  function OpenNeedAt(db: Db, enrollment: nat): nat -> int {
    (c: nat) => if c < |db.charges| then OpenNeed(db, enrollment)(db.charges[c]) else 0
  }

  lemma OpenNeedListed(db: Db, enrollments: set<nat>, enrollment: nat, c: nat)
    requires Integrity(db) && enrollment in enrollments && c < |db.charges|
    ensures OpenNeedAt(db, enrollment)(c)
         == if c in TargetCharges(db, enrollments) then NeedFor(db, enrollment)(c) else 0
  {
    TargetChargesSelected(db, enrollments);
    assert ChargeRowOk(db, c) && ChargeBalanced(db, c);
    assert IsOpenOf(db, enrollments)(c) <==> c in TargetCharges(db, enrollments);
    assert NeedFor(db, enrollment)(c) == if EnrollmentOf(db, c) == enrollment then Need(db, c) else 0;
    assert OpenNeed(db, enrollment)(db.charges[c])
        == if db.charges[c].enrollment == enrollment &&
          db.charges[c].status == Open then db.charges[c].amount - ActiveOn(db, c) else 0;
    assert Need(db, c) == Remaining(db, c);
  }

  /** The balance a payment is checked against is what its allocation loop can place. */
  lemma OpenBalanceIsNeeded(db: Db, enrollments: set<nat>, enrollment: nat)
    requires Integrity(db) && enrollment in enrollments
    ensures var cs := TargetCharges(db, enrollments);
      NeededBefore(db, cs, |cs|, enrollment) == OpenBalance(db, enrollment)
  {
    var cs := TargetCharges(db, enrollments);
    var n, v, w := |db.charges|, NeedFor(db, enrollment), OpenNeedAt(db, enrollment);
    TargetChargesSelected(db, enrollments);
    forall c: nat | c < n
      ensures w(c) == if c in cs then v(c) else 0
    {
      OpenNeedListed(db, enrollments, enrollment, c);
    }
    forall i | 0 <= i < |cs| ensures cs[i] < n { assert cs[i] in cs; }
    assert cs[..|cs|] == cs;
    SumListed(cs, n, v, w);
    SumMapped(Range(n), db.charges, w, OpenNeed(db, enrollment));
  }

  function FindEnrollment(db: Db, student: int, course: nat, from: nat): (r: Option<nat>)
    ensures r.Some? ==> r.value < |db.enrollments|
    decreases |db.enrollments| - from
  {
    if from >= |db.enrollments| then None
    else if db.enrollments[from].student == student && db.enrollments[from].course == course then Some(from)
    else FindEnrollment(db, student, course, from + 1)
  }

  predicate Payable(db: Db, student: int, enrollment: nat) {
    && enrollment < |db.enrollments|
    && db.enrollments[enrollment].student == student
    && (db.enrollments[enrollment].status == Active || db.enrollments[enrollment].status == Withdrawn)
  }

  function TargetError(db: Db, student: int, p: Portion): Option<LedgerError> {
    if !Payable(db, student, p.enrollment) then Some(InvalidTarget)
    else if p.amount > OpenBalance(db, p.enrollment) then Some(ExceedsBalance(OpenBalance(db, p.enrollment)))
    else None
  }

  /** The error of the first target that has one. */
  function FirstTargetError(db: Db, student: int, portions: seq<Portion>): Option<LedgerError> {
    if portions == [] then None
    else if TargetError(db, student, portions[0]).Some? then TargetError(db, student, portions[0])
    else FirstTargetError(db, student, portions[1..])
  }

  predicate HasDuplicate(portions: seq<Portion>) {
    |EnrollmentsOf(portions)| != |portions|
  }

  /** A payment that names a course is one portion for that enrollment. */
  function Portions(db: Db, student: int, course: nat, targets: Option<seq<Portion>>,
                    amount: Money): Result<seq<Portion>, LedgerError> {
    match targets
    case Some(portions) => Success(portions)
    case None =>
      match FindEnrollment(db, student, course, 0)
      case None => Failure(InvalidTarget)
      case Some(enrollment) => Success([Portion(enrollment, amount)])
  }

  function PaymentCheck(db: Db, student: int, course: nat, targets: Option<seq<Portion>>, amount: int,
                        at: nat): Result<seq<Portion>, LedgerError> {
    if !(0 < amount <= MAX_CENTS) then Failure(InvalidAmount)
    else if IsClosed(db, Calendar.PeriodKey(at)) then Failure(ClosedPeriod)
    else match Portions(db, student, course, targets, amount)
      case Failure(e) => Failure(e)
      case Success(portions) =>
        if Sum(portions, PortionAmount()) != amount then Failure(SumMismatch)
        else if HasDuplicate(portions) then Failure(DuplicateTarget)
        else match FirstTargetError(db, student, portions)
          case Some(e) => Failure(e)
          case None => Success(portions)
  }

  function PaymentEntry(db: Db, student: int, amount: int, at: nat, recorder: int): Entry {
    Entry(|db.entries|, student, Payment, amount, at, recorder, None, false)
  }

  function TargetRows(entry: nat, portions: seq<Portion>): seq<Target> {
    seq(|portions|, i requires 0 <= i < |portions| => Target(entry, portions[i].enrollment, portions[i].amount))
  }

  function RowsForPayment(db: Db, entry: nat, portions: seq<Portion>): seq<Allocation> {
    var cs := TargetCharges(db, EnrollmentsOf(portions));
    PaymentRows(db, entry, portions, cs, |cs|)
  }

  function AfterPayment(db: Db, student: int, portions: seq<Portion>, amount: int, at: nat, recorder: int): Db {
    var paid := AddEntry(db, PaymentEntry(db, student, amount, at, recorder));
    Spend(paid, RowsForPayment(paid, |db.entries|, portions)).(targets :=
      db.targets + TargetRows(|db.entries|, portions))
  }

  // ---------------------------------------------------------------------------
  // What an accepted payment does
  // ---------------------------------------------------------------------------

  lemma {:induction false} DistinctByCount(portions: seq<Portion>)
    ensures |EnrollmentsOf(portions)| <= |portions|
    ensures |EnrollmentsOf(portions)| == |portions| <==> DistinctTargets(portions)
  {
    if portions != [] {
      var front, last := portions[..|portions| - 1], portions[|portions| - 1];
      DistinctByCount(front);
      assert EnrollmentsOf(portions) == EnrollmentsOf(front) + {last.enrollment};
      if last.enrollment in EnrollmentsOf(front) {
        assert EnrollmentsOf(portions) == EnrollmentsOf(front);
      }
    }
  }

  lemma {:induction false} NoTargetError(db: Db, student: int, portions: seq<Portion>, i: nat)
    requires FirstTargetError(db, student, portions).None? && i < |portions|
    ensures TargetError(db, student, portions[i]).None?
  {
    if 0 < i { NoTargetError(db, student, portions[1..], i - 1); }
  }

  ghost predicate Accepted(db: Db, student: int, portions: seq<Portion>, amount: int) {
    && 0 < amount <= MAX_CENTS && Sum(portions, PortionAmount()) == amount
    && DistinctTargets(portions)
    && forall i :: 0 <= i < |portions| ==> TargetError(db, student, portions[i]).None?
  }

  lemma CheckedIsAccepted(db: Db, student: int, course: nat, targets: Option<seq<Portion>>, amount: int, at: nat)
    requires PaymentCheck(db, student, course, targets, amount, at).Success?
    ensures Accepted(db, student, PaymentCheck(db, student, course, targets, amount, at).value, amount)
  {
    var portions := PaymentCheck(db, student, course, targets, amount, at).value;
    DistinctByCount(portions);
    forall i | 0 <= i < |portions| ensures TargetError(db, student, portions[i]).None? {
      NoTargetError(db, student, portions, i);
    }
  }

  lemma OpenBalanceFrame(db: Db, e: Entry, enrollment: nat)
    ensures OpenBalance(AddEntry(db, e), enrollment) == OpenBalance(db, enrollment)
  {
    var next := AddEntry(db, e);
    forall i | 0 <= i < |db.charges|
      ensures OpenNeed(next, enrollment)(db.charges[i]) == OpenNeed(db, enrollment)(db.charges[i])
    {
      assert ActiveOn(next, db.charges[i].id) == ActiveOn(db, db.charges[i].id);
    }
    SumAgree(db.charges, OpenNeed(next, enrollment), OpenNeed(db, enrollment));
  }

  lemma TargetChargeIsOpen(db: Db, student: int, portions: seq<Portion>, j: nat)
    requires RowsOk(db) && j < |TargetCharges(db, EnrollmentsOf(portions))|
    requires forall i :: 0 <= i < |portions| ==> Payable(db, student, portions[i].enrollment)
    ensures var c := TargetCharges(db, EnrollmentsOf(portions))[j];
      && c < |db.charges| && db.charges[c].status == Open && db.charges[c].student == student
      && EnrollmentOf(db, c) in EnrollmentsOf(portions)
  {
    var cs := TargetCharges(db, EnrollmentsOf(portions));
    TargetChargesSelected(db, EnrollmentsOf(portions));
    assert cs[j] in cs;
    assert IsOpenOf(db, EnrollmentsOf(portions))(cs[j]);
    var i :| 0 <= i < |portions| && portions[i].enrollment == db.charges[cs[j]].enrollment;
    assert ChargeRowOk(db, cs[j]) && Payable(db, student, portions[i].enrollment);
  }

  /** The books between recording an accepted payment and allocating it. */
  lemma PaymentRecorded(db: Db, student: int, portions: seq<Portion>, amount: int, at: nat, recorder: int)
    requires Integrity(db) && Accepted(db, student, portions, amount)
    ensures var paid := AddEntry(db, PaymentEntry(db, student, amount, at, recorder));
      && Integrity(paid)
      && Available(paid, |db.entries|) == amount && !Voided(paid.entries, |db.entries|)
      && PortionsFit(paid, portions, TargetCharges(paid, EnrollmentsOf(portions)))
      && (forall i :: 0 <= i < |portions| ==> Payable(paid, student, portions[i].enrollment))
      && Sum(RowsForPayment(paid, |db.entries|, portions), AmountOf()) == amount
  {
    var e := PaymentEntry(db, student, amount, at, recorder);
    var paid := AddEntry(db, e);
    FundingEntryKeepsIntegrity(db, e);
    var cs := TargetCharges(paid, EnrollmentsOf(portions));
    forall i | 0 <= i < |portions|
      ensures portions[i].amount <= NeededBefore(paid, cs, |cs|, portions[i].enrollment)
      ensures Payable(paid, student, portions[i].enrollment)
    {
      assert TargetError(db, student, portions[i]).None?;
      OpenBalanceFrame(db, e, portions[i].enrollment);
      OpenBalanceIsNeeded(paid, EnrollmentsOf(portions), portions[i].enrollment);
    }
    forall j | 0 <= j < |cs| ensures EnrollmentOf(paid, cs[j]) in EnrollmentsOf(portions) {
      TargetChargeIsOpen(paid, student, portions, j);
    }
    PaymentInFull(paid, |db.entries|, portions, cs);
  }

  /** One funding entry paying several charges of its student within their needs. */
  lemma OneEntrySpendable(db: Db, rows: seq<Allocation>, e: nat)
    requires Integrity(db) && e < |db.entries| && Funds(db.entries[e].kind) && !Voided(db.entries, e)
    requires forall k :: 0 <= k < |rows| ==> NewRowOk(db, rows, k) && rows[k].entry == e
    requires Sum(rows, AmountOf()) <= Available(db, e)
    requires forall c :: 0 <= c < |db.charges| ==> ChargeTakes(db, rows, c)
    ensures Spendable(db, rows) && Sum(rows, OfEntry(e)) == Sum(rows, AmountOf())
  {
    SumAgree(rows, OfEntry(e), AmountOf());
    forall k | 0 <= k < |db.entries| ensures EntryGives(db, rows, k) {
      assert EntryCovered(db, k);
      if k != e { SumZero(rows, OfEntry(k)); }
    }
  }

  lemma PaymentSpendable(db: Db, student: int, portions: seq<Portion>, amount: int, at: nat, recorder: int)
    requires Integrity(db) && Accepted(db, student, portions, amount)
    ensures var paid := AddEntry(db, PaymentEntry(db, student, amount, at, recorder));
      var rows := RowsForPayment(paid, |db.entries|, portions);
      && Integrity(paid) && Spendable(paid, rows) && Sum(rows, OfEntry(|db.entries|)) == amount
      && (forall k :: 0 <= k < |rows| ==> rows[k].entry == |db.entries|)
  {
    hide PaymentRows, Accepted, PortionsFit, NeededBefore;
    var e := |db.entries|;
    var paid := AddEntry(db, PaymentEntry(db, student, amount, at, recorder));
    PaymentRecorded(db, student, portions, amount, at, recorder);
    var cs, rows := TargetCharges(paid, EnrollmentsOf(portions)), RowsForPayment(paid, e, portions);
    TargetChargesSelected(paid, EnrollmentsOf(portions));
    forall k | 0 <= k < |rows| ensures NewRowOk(paid, rows, k) && rows[k].entry == e {
      PaymentRowShape(paid, e, portions, cs, |cs|, k);
      var j :| 0 <= j < |cs| && cs[j] == rows[k].charge;
      TargetChargeIsOpen(paid, student, portions, j);
    }
    forall c | 0 <= c < |paid.charges| ensures ChargeTakes(paid, rows, c) {
      assert ChargeBalanced(paid, c);
      if c in cs {
        var j :| 0 <= j < |cs| && cs[j] == c;
        TargetChargeIsOpen(paid, student, portions, j);
        PaymentRowsByCharge(paid, e, portions, cs, |cs|, j);
      } else {
        forall k | 0 <= k < |rows|
          ensures OnCharge(c)(rows[k]) == 0
        {
          PaymentRowShape(paid, e, portions, cs, |cs|, k);
        }
        SumZero(rows, OnCharge(c));
      }
    }
    OneEntrySpendable(paid, rows, e);
  }

  /** The targets of payments and the accounting periods take no part in any balance. */
  lemma TargetsAreApart(db: Db, targets: seq<Target>, student: int)
    ensures var next := db.(targets := targets);
      && (Integrity(db) ==> Integrity(next))
      && Outstanding(next, student) == Outstanding(db, student) && Wallet(next, student) == Wallet(db, student)
  {
    var next := db.(targets := targets);
    if Integrity(db) {
      forall i | 0 <= i < |db.charges|
        ensures ChargeRowOk(next, i) && ChargeBalanced(next, i)
      {
        assert ChargeRowOk(db, i) && ChargeBalanced(db, i);
      }
      forall i | 0 <= i < |db.entries|
        ensures EntryRowOk(next, i) && EntryCovered(next, i)
      {
        assert EntryRowOk(db, i) && EntryCovered(db, i);
      }
      forall i | 0 <= i < |db.allocations| ensures AllocationRowOk(next, i) { assert AllocationRowOk(db, i); }
      forall i | 0 <= i < |db.enrollments| ensures EnrollmentRowOk(next, i) { assert EnrollmentRowOk(db, i); }
    }
  }

  /** An accepted payment lowers what its student owes by its amount, leaves the wallet
      alone, and is applied in full. */
  lemma PaymentEffect(db: Db, student: int, portions: seq<Portion>, amount: int, at: nat, recorder: int, other: int)
    requires Integrity(db) && Accepted(db, student, portions, amount)
    ensures var next := AfterPayment(db, student, portions, amount, at, recorder);
      && Integrity(next)
      && Applied(next, |db.entries|) == amount
      && Outstanding(next, other) == Outstanding(db, other) - (if other == student then amount else 0)
      && Wallet(next, other) == Wallet(db, other)
  {
    hide Sum, PaymentRows, TargetCharges, OpenBalance, Balanced;
    var e := PaymentEntry(db, student, amount, at, recorder);
    var paid := AddEntry(db, e);
    var rows := RowsForPayment(paid, |db.entries|, portions);
    PaymentSpendable(db, student, portions, amount, at, recorder);
    SpendKeepsIntegrity(paid, rows);
    SpendPosition(paid, rows, other);
    FundingEntryPosition(db, e, other);
    SpendSums(paid, rows);
    Untouched(db, |db.entries|);
    forall k | 0 <= k < |rows|
      ensures SpentFor(paid.entries, other)(rows[k]) == if other == student then OfEntry(e.id)(rows[k]) else 0
      ensures DiscountFunded(paid.entries, other)(rows[k]) == 0
    {
      SpendableRow(paid, rows, k);
      assert Consumes(paid.entries, rows[k]);
      assert LiveCredit(paid.entries, other, e.id) <==> other == student;
      assert !KindIs(paid.entries, e.id, Discount);
    }
    SumZero(rows, DiscountFunded(paid.entries, other));
    if other == student { SumAgree(rows, SpentFor(paid.entries, other), OfEntry(e.id)); }
    else { SumZero(rows, SpentFor(paid.entries, other)); }
    TargetsAreApart(Spend(paid, rows), db.targets + TargetRows(|db.entries|, portions), other);
  }

  /** Each stored target names a portion and receives exactly its amount, and inside an
      enrollment a charge is funded only once the earlier open ones are settled. */
  lemma PaymentSplit(db: Db, student: int, portions: seq<Portion>, amount: int, at: nat, recorder: int)
    requires Integrity(db) && Accepted(db, student, portions, amount)
    ensures var paid, next := AddEntry(db, PaymentEntry(db, student, amount, at, recorder)),
      AfterPayment(db, student, portions, amount, at, recorder);
      var rows, cs := next.allocations[|db.allocations|..], TargetCharges(paid, EnrollmentsOf(portions));
      && |next.targets| == |db.targets| + |portions|
      && (forall i :: 0 <= i < |portions| ==>
           var target := next.targets[|db.targets| + i];
           && target.entry == |db.entries| && target.enrollment == portions[i].enrollment
           && Sum(rows, RowFor(paid, target.enrollment)) == target.amount == portions[i].amount)
      && (forall j :: 0 <= j < |cs| ==> Sum(rows, OnCharge(cs[j])) == Share(paid, portions, cs, j))
  {
    hide PaymentRows, TargetCharges, Accepted, Integrity, PortionsFit, Share;
    var paid := AddEntry(db, PaymentEntry(db, student, amount, at, recorder));
    var next := AfterPayment(db, student, portions, amount, at, recorder);
    var e, cs, rows := |db.entries|, TargetCharges(paid, EnrollmentsOf(portions)),
      RowsForPayment(paid, |db.entries|, portions);
    PaymentRecorded(db, student, portions, amount, at, recorder);
    TargetChargesSelected(paid, EnrollmentsOf(portions));
    assert next.allocations == db.allocations + rows;
    assert next.allocations[|db.allocations|..] == rows;
    PortionsReceived(db, student, portions, amount, at, recorder);
    forall j | 0 <= j < |cs| ensures Sum(rows, OnCharge(cs[j])) == Share(paid, portions, cs, j) {
      PaymentRowsByCharge(paid, e, portions, cs, |cs|, j);
    }
  }

  lemma PortionsReceived(db: Db, student: int, portions: seq<Portion>, amount: int, at: nat, recorder: int)
    requires Integrity(db) && Accepted(db, student, portions, amount)
    ensures var paid := AddEntry(db, PaymentEntry(db, student, amount, at, recorder));
      forall i :: 0 <= i < |portions| ==>
        Sum(RowsForPayment(paid, |db.entries|, portions), RowFor(paid, portions[i].enrollment)) == portions[i].amount
  {
    var paid := AddEntry(db, PaymentEntry(db, student, amount, at, recorder));
    var e, cs := |db.entries|, TargetCharges(paid, EnrollmentsOf(portions));
    PaymentRecorded(db, student, portions, amount, at, recorder);
    forall i | 0 <= i < |portions|
      ensures Sum(RowsForPayment(paid, e, portions), RowFor(paid, portions[i].enrollment)) == portions[i].amount
    {
      EnrollmentReceives(paid, e, portions, cs, |cs|, portions[i].enrollment);
      TargetedMember(portions, i);
    }
  }

  // ---------------------------------------------------------------------------
  // The allocation loop
  // ---------------------------------------------------------------------------

  /** What is left of the portion of `enrollment` when the first `k` charges are served. */
  function PortionLeft(db: Db, portions: seq<Portion>, charges: seq<nat>, k: nat, enrollment: nat): int
    requires k <= |charges|
  {
    Max(0, Targeted(portions, enrollment) - NeededBefore(db, charges, k, enrollment))
  }

  /** Serving charge `k` takes its share from its own enrollment's portion only. */
  lemma ServeOneCharge(db: Db, entry: nat, portions: seq<Portion>, charges: seq<nat>, k: nat, enrollment: nat)
    requires k < |charges|
    ensures PortionLeft(db, portions, charges, k + 1, enrollment)
         == PortionLeft(db, portions, charges, k, enrollment)
            - (if EnrollmentOf(db, charges[k]) == enrollment then Share(db, portions, charges, k) else 0)
    ensures 0 <= Share(db, portions, charges, k)
    ensures Share(db, portions, charges, k)
         == Min(PortionLeft(db, portions, charges, k, EnrollmentOf(db, charges[k])), Need(db, charges[k]))
  {
    hide Targeted, Need;
    PaymentRowsStep(db, entry, portions, charges, k + 1, enrollment);
    PaymentRowsStep(db, entry, portions, charges, k + 1, EnrollmentOf(db, charges[k]));
  }

  /** A portion within its enrollment's need is used up at the end of the list. */
  lemma PortionsUsedUp(db: Db, portions: seq<Portion>, charges: seq<nat>, enrollment: nat)
    requires DistinctTargets(portions) && PortionsFit(db, portions, charges) && enrollment in EnrollmentsOf(portions)
    ensures PortionLeft(db, portions, charges, |charges|, enrollment) == 0
  {
    var i :| 0 <= i < |portions| && portions[i].enrollment == enrollment;
    TargetedMember(portions, i);
  }

  /** The charges a payment serves are open charges of the enrollments it names, and
      each needs what it has remaining. */
  lemma OpenTargets(db: Db, portions: seq<Portion>)
    requires Integrity(db)
    ensures var due := TargetCharges(db, EnrollmentsOf(portions));
      forall j :: 0 <= j < |due| ==>
        && due[j] < |db.charges| && db.charges[due[j]].id == due[j]
        && db.charges[due[j]].enrollment == EnrollmentOf(db, due[j])
        && EnrollmentOf(db, due[j]) in EnrollmentsOf(portions)
        && Need(db, due[j]) == db.charges[due[j]].amount - ActiveOn(db, due[j])
  {
    var due := TargetCharges(db, EnrollmentsOf(portions));
    TargetChargesSelected(db, EnrollmentsOf(portions));
    forall j | 0 <= j < |due|
      ensures due[j] < |db.charges| && db.charges[due[j]].id == due[j]
      ensures db.charges[due[j]].enrollment == EnrollmentOf(db, due[j])
      ensures EnrollmentOf(db, due[j]) in EnrollmentsOf(portions)
      ensures Need(db, due[j]) == db.charges[due[j]].amount - ActiveOn(db, due[j])
    {
      assert due[j] in due && IsOpenOf(db, EnrollmentsOf(portions))(due[j]);
      assert ChargeRowOk(db, due[j]) && ChargeBalanced(db, due[j]);
    }
  }

  lemma PortionsWhole(db: Db, portions: seq<Portion>, charges: seq<nat>)
    ensures forall e: nat :: PortionLeft(db, portions, charges, 0, e) == Targeted(portions, e)
  {
    forall e: nat ensures PortionLeft(db, portions, charges, 0, e) == Targeted(portions, e) {
      TargetedNonNegative(portions, e);
      assert charges[..0] == [];
    }
  }
}
