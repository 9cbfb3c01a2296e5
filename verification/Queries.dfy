/** The ordered reads the mutations of the ledger start from. */
module Queries {
  import opened Wrappers
  import opened Tables
  import opened Ordering

  /** By date, then id. */
  function EntryKey(db: Db): nat -> Key {
    (e: nat) => Key(if e < |db.entries| then db.entries[e].at else 0, 0, e)
  }

  /** By due date, sequence number, then id. */
  function InstallmentKey(db: Db): nat -> Key {
    (c: nat) => if c < |db.charges| then Key(db.charges[c].due, db.charges[c].sequenceNo, c) else Key(0, 0, c)
  }

  /** By due date, then id. */
  function DueKey(db: Db): nat -> Key {
    (c: nat) => Key(if c < |db.charges| then db.charges[c].due else 0, 0, c)
  }

  function IsLiveCredit(db: Db, student: int): nat -> bool {
    (e: nat) => LiveCredit(db.entries, student, e)
  }

  function IsOpenFor(db: Db, student: int, enrollment: Option<nat>): nat -> bool {
    (c: nat) => c < |db.charges| && db.charges[c].student == student && db.charges[c].status == Open
      && (enrollment.None? || enrollment.value == db.charges[c].enrollment)
  }

  function IsLiveFor(db: Db, student: int, enrollment: nat): nat -> bool {
    (c: nat) => c < |db.charges| && db.charges[c].student == student && db.charges[c].status != Cancelled
      && enrollment == db.charges[c].enrollment
  }

  function IsOpenOf(db: Db, enrollments: set<nat>): nat -> bool {
    (c: nat) => c < |db.charges| && db.charges[c].status == Open && db.charges[c].enrollment in enrollments
  }

  /** The student's credit entries that are not voided, oldest first. */
  function CreditEntries(db: Db, student: int): seq<nat> {
    OrderBy(|db.entries|, IsLiveCredit(db, student), EntryKey(db))
  }

  /** `_open_charges`. */
  function OpenCharges(db: Db, student: int, enrollment: Option<nat>): seq<nat> {
    OrderBy(|db.charges|, IsOpenFor(db, student, enrollment), InstallmentKey(db))
  }

  /** The charges `allocate_course_credit` settles. */
  function CourseCharges(db: Db, student: int, enrollment: nat): seq<nat> {
    OrderBy(|db.charges|, IsLiveFor(db, student, enrollment), DueKey(db))
  }

  /** The charges a payment to these enrollments settles. */
  function TargetCharges(db: Db, enrollments: set<nat>): seq<nat> {
    OrderBy(|db.charges|, IsOpenOf(db, enrollments), InstallmentKey(db))
  }

  ghost predicate Distinct(ids: seq<nat>) {
    forall i, j :: 0 <= i < j < |ids| ==> ids[i] != ids[j]
  }

  lemma CreditEntriesSelected(db: Db, student: int)
    ensures Selects(CreditEntries(db, student), |db.entries|, IsLiveCredit(db, student), EntryKey(db))
    ensures Distinct(CreditEntries(db, student))
    ensures forall e: nat :: e in CreditEntries(db, student) <==> LiveCredit(db.entries, student, e)
  {
    OrderBySelects(|db.entries|, IsLiveCredit(db, student), EntryKey(db));
    forall e: nat ensures IsLiveCredit(db, student)(e) <==> LiveCredit(db.entries, student, e) {}
  }

  lemma OpenChargesSelected(db: Db, student: int, enrollment: Option<nat>)
    ensures Selects(OpenCharges(db, student, enrollment), |db.charges|, IsOpenFor(db, student, enrollment),
      InstallmentKey(db))
    ensures Distinct(OpenCharges(db, student, enrollment))
  {
    OrderBySelects(|db.charges|, IsOpenFor(db, student, enrollment), InstallmentKey(db));
  }

  lemma CourseChargesSelected(db: Db, student: int, enrollment: nat)
    ensures Selects(CourseCharges(db, student, enrollment), |db.charges|, IsLiveFor(db, student, enrollment),
      DueKey(db))
    ensures Distinct(CourseCharges(db, student, enrollment))
  {
    OrderBySelects(|db.charges|, IsLiveFor(db, student, enrollment), DueKey(db));
  }

  lemma TargetChargesSelected(db: Db, enrollments: set<nat>)
    ensures Selects(TargetCharges(db, enrollments), |db.charges|, IsOpenOf(db, enrollments), InstallmentKey(db))
    ensures Distinct(TargetCharges(db, enrollments))
  {
    OrderBySelects(|db.charges|, IsOpenOf(db, enrollments), InstallmentKey(db));
  }
}
