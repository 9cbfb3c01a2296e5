/**
 The ledger's tables and the balances computed from them.

 Rows are appended and keep their position, so a row's id is its index.  Amounts are
 whole cents.  Every `SUM` of the source is a `Sum` of a valuation that is zero on the
 rows its filter leaves out.
 */
module Tables {
  import opened Arithmetic
  import opened Wrappers
  import opened Sums
  import opened Calendar

  datatype EntryKind = Payment | Discount | Refund | Adjustment | Void | WithdrawalReversal
  datatype ChargeStatus = Open | Settled | Cancelled
  datatype ChargeType = Tuition | Fee | LateFee
  datatype EnrollmentStatus = Active | Withdrawn | Completed
  datatype BillingMode = Paid | Grant
  datatype PeriodStatus = PeriodOpen | PeriodClosed

  /** The largest amount a money column holds, in cents. */
  const MAX_CENTS := 9_999_999_999

  /** `PositiveMoney`, in cents. */
  type Money = x: int | 0 < x <= MAX_CENTS witness 1

  datatype Course = Course(start: Date, end: Date)

  datatype Enrollment = Enrollment(
    student: int, course: nat, price: int, enrolledAt: nat, status: EnrollmentStatus, mode: BillingMode)

  datatype Charge = Charge(
    id: nat, enrollment: nat, student: int, sequenceNo: nat, amount: int, due: int,
    kind: ChargeType, status: ChargeStatus)

  datatype Entry = Entry(
    id: nat, student: int, kind: EntryKind, amount: int, at: nat, recorder: int,
    reverses: Option<nat>, cashOut: bool)

  datatype Allocation = Allocation(
    id: nat, entry: nat, charge: nat, amount: int, reversedBy: Option<nat>)

  datatype Target = Target(entry: nat, enrollment: nat, amount: int)

  datatype Db = Db(
    courses: seq<Course>, enrollments: seq<Enrollment>, charges: seq<Charge>,
    entries: seq<Entry>, allocations: seq<Allocation>, targets: seq<Target>,
    periods: map<nat, PeriodStatus>)

  /** Why a request is turned down; the transaction is rolled back. */
  datatype LedgerError =
    | InvalidAmount | ClosedPeriod | NotFound | Forbidden
    | InvalidTarget | SumMismatch | DuplicateTarget | ExceedsBalance(maximum: int)
    | ChargeNotOpen | ChargeIsCancelled | AlreadySettled | ExceedsRemaining(remaining: int)
    | AlreadyVoided | AlreadyRefunded | ExceedsRefundable(refundable: int)
    | NoCredit | ExceedsWallet(wallet: int) | NothingToAllocate
    | EnrollmentNotActive | ModeUnchanged | ActorRequired | MonthNotFound
    | CourseInactive | CourseEnded | StudentInactive | AlreadyEnrolled

  const EMPTY := Db([], [], [], [], [], [], map[])

  predicate IsClosed(db: Db, period: nat) {
    period in db.periods && db.periods[period] == PeriodClosed
  }

  // ---------------------------------------------------------------------------
  // Balances of one charge and of one entry
  // ---------------------------------------------------------------------------

  /** What an allocation settles of charge `c`. */
  function OnCharge(c: nat): Allocation -> int {
    (a: Allocation) => if a.charge == c && a.reversedBy.None? then a.amount else 0
  }

  /** What an allocation still applies of entry `e`. */
  function OfEntry(e: nat): Allocation -> int {
    (a: Allocation) => if a.entry == e && a.reversedBy.None? then a.amount else 0
  }

  predicate KindIs(entries: seq<Entry>, e: nat, kind: EntryKind) {
    e < |entries| && entries[e].kind == kind
  }

  /** An allocation uses up credit while it is active; one of an adjustment goes on
      doing so after a withdrawal reversed it. */
  predicate Consumes(entries: seq<Entry>, a: Allocation) {
    || a.reversedBy.None?
    || (KindIs(entries, a.entry, Adjustment) && KindIs(entries, a.reversedBy.value, WithdrawalReversal))
  }

  function ConsumedOf(entries: seq<Entry>, e: nat): Allocation -> int {
    (a: Allocation) => if a.entry == e && Consumes(entries, a) then a.amount else 0
  }

  function RefundOf(e: nat): Entry -> int {
    (r: Entry) => if r.reverses == Some(e) && r.kind == Refund then r.amount else 0
  }

  function CashOutOf(e: nat): Entry -> int {
    (r: Entry) => if r.reverses == Some(e) && r.kind == Refund && r.cashOut then r.amount else 0
  }

  function ActiveOn(db: Db, c: nat): int { Sum(db.allocations, OnCharge(c)) }

  function Applied(db: Db, e: nat): int { Sum(db.allocations, OfEntry(e)) }

  function Consumed(db: Db, e: nat): int { Sum(db.allocations, ConsumedOf(db.entries, e)) }

  function Refunded(db: Db, e: nat): int { Sum(db.entries, RefundOf(e)) }

  function CashedOut(db: Db, e: nat): int { Sum(db.entries, CashOutOf(e)) }

  /** `_charge_remaining`. */
  function Remaining(db: Db, c: nat): int
    requires c < |db.charges|
  {
    db.charges[c].amount - ActiveOn(db, c)
  }

  /** `_entry_available`. */
  function Available(db: Db, e: nat): int
    requires e < |db.entries|
  {
    db.entries[e].amount - Consumed(db, e) - CashedOut(db, e)
  }

  predicate IsCredit(e: Entry) { e.kind == Payment || e.kind == Adjustment }

  predicate Voided(entries: seq<Entry>, e: nat) {
    exists k :: 0 <= k < |entries| && entries[k].kind == Void && entries[k].reverses == Some(e)
  }

  // ---------------------------------------------------------------------------
  // Balances of one student
  // ---------------------------------------------------------------------------

  function CreditFor(entries: seq<Entry>, student: int): Entry -> int {
    (e: Entry) => if e.student == student && IsCredit(e) && !Voided(entries, e.id) then e.amount else 0
  }

  function CashOutFor(student: int): Entry -> int {
    (e: Entry) => if e.student == student && e.kind == Refund && e.cashOut then e.amount else 0
  }

  predicate LiveCredit(entries: seq<Entry>, student: int, e: nat) {
    e < |entries| && entries[e].student == student && IsCredit(entries[e]) && !Voided(entries, e)
  }

  function SpentFor(entries: seq<Entry>, student: int): Allocation -> int {
    (a: Allocation) => if LiveCredit(entries, student, a.entry) && Consumes(entries, a) then a.amount else 0
  }

  /** Credit received, less cash paid out, less what it settles, before clamping. */
  function NetCredit(db: Db, student: int): int {
    Sum(db.entries, CreditFor(db.entries, student)) - Sum(db.entries, CashOutFor(student))
    - Sum(db.allocations, SpentFor(db.entries, student))
  }

  /** `get_unallocated_credit`. */
  function Wallet(db: Db, student: int): int {
    Max(0, NetCredit(db, student))
  }

  function BilledFor(student: int): Charge -> int {
    (c: Charge) => if c.student == student && c.status != Cancelled then c.amount else 0
  }

  function SettledFor(charges: seq<Charge>, student: int): Allocation -> int {
    (a: Allocation) =>
      if a.reversedBy.None? && a.charge < |charges| && charges[a.charge].student == student &&
        charges[a.charge].status != Cancelled
      then a.amount else 0
  }

  /** What the student still owes on charges that are not cancelled. */
  function Outstanding(db: Db, student: int): int {
    Sum(db.charges, BilledFor(student)) - Sum(db.allocations, SettledFor(db.charges, student))
  }

  /** What the student owes less what the student holds. */
  function Position(db: Db, student: int): int {
    Outstanding(db, student) - Wallet(db, student)
  }

  // ---------------------------------------------------------------------------
  // Integrity
  // ---------------------------------------------------------------------------

  predicate Funds(kind: EntryKind) { kind == Payment || kind == Adjustment || kind == Discount }

  predicate CourseOk(c: Course) {
    ValidDate(c.start) && ValidDate(c.end) && DayNumber(c.start) < DayNumber(c.end)
  }

  predicate EnrollmentRowOk(db: Db, i: nat)
    requires i < |db.enrollments|
  {
    db.enrollments[i].course < |db.courses| && 0 < db.enrollments[i].price <= MAX_CENTS
  }

  predicate ChargeRowOk(db: Db, i: nat)
    requires i < |db.charges|
  {
    var c := db.charges[i];
    && c.id == i && 0 < c.amount <= MAX_CENTS && 1 <= c.sequenceNo
    && c.enrollment < |db.enrollments| && db.enrollments[c.enrollment].student == c.student
  }

  /** A void or a refund names an earlier payment of the same student. */
  predicate EntryRowOk(db: Db, i: nat)
    requires i < |db.entries|
  {
    var e := db.entries[i];
    && e.id == i && 0 < e.amount
    && (e.kind == Void || e.kind == Refund ==>
          && e.reverses.Some? && e.reverses.value < i
          && db.entries[e.reverses.value].kind == Payment
          && db.entries[e.reverses.value].student == e.student)
    && (e.kind == Void ==> db.entries[e.reverses.value].amount == e.amount)
    && (e.kind != Void && e.kind != Refund ==> e.reverses.None?)
    && (e.kind != Refund ==> !e.cashOut)
  }

  /** An allocation applies a funding entry to a charge of the same student, and only a
      withdrawal, or a void or refund of that very entry, reverses it. */
  predicate AllocationRowOk(db: Db, i: nat)
    requires i < |db.allocations|
  {
    var a := db.allocations[i];
    && a.id == i && 0 < a.amount
    && a.entry < |db.entries| && Funds(db.entries[a.entry].kind)
    && a.charge < |db.charges| && db.charges[a.charge].student == db.entries[a.entry].student
    && (a.reversedBy.Some? ==>
          && a.reversedBy.value < |db.entries|
          && (db.entries[a.reversedBy.value].kind == WithdrawalReversal
              || db.entries[a.reversedBy.value].reverses == Some(a.entry)))
  }

  ghost predicate RowsOk(db: Db) {
    && (forall i :: 0 <= i < |db.courses| ==> CourseOk(db.courses[i]))
    && (forall i :: 0 <= i < |db.enrollments| ==> EnrollmentRowOk(db, i))
    && (forall i :: 0 <= i < |db.charges| ==> ChargeRowOk(db, i))
    && (forall i :: 0 <= i < |db.entries| ==> EntryRowOk(db, i))
    && (forall i :: 0 <= i < |db.allocations| ==> AllocationRowOk(db, i))
  }

  /** No charge is settled beyond its amount, a charge is SETTLED exactly when it is
      settled in full, and nothing is applied to a cancelled one. */
  predicate ChargeBalanced(db: Db, c: nat)
    requires c < |db.charges|
  {
    && 0 <= ActiveOn(db, c) <= db.charges[c].amount
    && match db.charges[c].status
       case Cancelled => ActiveOn(db, c) == 0
       case Settled => ActiveOn(db, c) == db.charges[c].amount
       case Open => ActiveOn(db, c) < db.charges[c].amount
  }

  /** No credit is spent twice, refunds stay within the payment, and a voided payment
      keeps neither an active allocation nor a refund. */
  predicate EntryCovered(db: Db, e: nat)
    requires e < |db.entries|
  {
    && Consumed(db, e) + CashedOut(db, e) <= db.entries[e].amount
    && Refunded(db, e) <= db.entries[e].amount
    && (Voided(db.entries, e) ==> Applied(db, e) == 0 && Refunded(db, e) == 0)
  }

  ghost predicate Balanced(db: Db) {
    && (forall c :: 0 <= c < |db.charges| ==> ChargeBalanced(db, c))
    && (forall e :: 0 <= e < |db.entries| ==> EntryCovered(db, e))
  }

  /** What every reachable state of the ledger satisfies. */
  ghost predicate Integrity(db: Db) {
    RowsOk(db) && Balanced(db)
  }
}
