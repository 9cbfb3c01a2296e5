/**
 Idempotent requests: `PaymentIdempotencyService.record_payment` and
 `CreditAllocationIdempotencyService.allocate` as transactions whose steps interleave.

 A transaction locks its student, looks its key up, and writes the ledger inside a
 savepoint.  Only the last flush, which stores the key, is told by a unique index that
 another transaction took the key first; then the savepoint is restored and the winner is
 looked up.  What is written is seen by others once it is committed.

 Payments and allocations of course credit store their keys in two tables, each with its
 own index, so a key of one kind says nothing about the other.
 */
module Idempotency {
  import opened Wrappers
  import opened Tables
  import opened Merging
  import Operations
  import Runs
  import Concessions
  import Crediting
  import Payments
  import Queries
  import Rules
  import Withdrawals

  /** What is asked for.  A payment names its targets, or a course. */
  datatype Wish =
    | RecordPayment(student: int, course: nat, targets: Option<seq<Payments.Portion>>, paid: Money, at: nat,
                    means: int, comment: Option<string>)
    | AllocateCredit(student: int, enrollment: nat, requested: Option<Money>)

  datatype Request = Request(recorder: int, key: Option<int>, wish: Wish)

  /** What a fingerprint is the hash of.  Targets count without their order. */
  datatype Fingerprint =
    | OfTargets(student: int, targets: multiset<Payments.Portion>, paid: Money, at: nat, means: int,
      comment: Option<string>)
    | OfCourse(student: int, course: nat, paid: Money, at: nat, means: int, comment: Option<string>)
    | OfCredit(student: int, enrollment: nat, requested: Option<Money>)

  /** `normalized_targets`: a course is the one enrollment of the student in it. */
  function Targets(db: Db, wish: Wish): Result<seq<Payments.Portion>, LedgerError>
    requires wish.RecordPayment?
  {
    Payments.Portions(db, wish.student, wish.course, wish.targets, wish.paid)
  }

  /** A payment that names a course the student is not enrolled in. */
  predicate Unaddressed(db: Db, q: Request) { q.wish.RecordPayment? && Targets(db, q.wish).Failure? }

  function FingerprintOf(db: Db, q: Request): Fingerprint {
    match q.wish
    case RecordPayment(student, course, _, paid, at, means, comment) =>
      (match Targets(db, q.wish)
       case Success(portions) => OfTargets(student, multiset(portions), paid, at, means, comment)
       case Failure(_) => OfCourse(student, course, paid, at, means, comment))
    case AllocateCredit(student, enrollment, requested) => OfCredit(student, enrollment, requested)
  }

  /** The fingerprint an older version stored of a payment that names a course. */
  function LegacyOf(q: Request): Option<Fingerprint> {
    match q.wish
    case RecordPayment(student, course, None, paid, at, means, comment) =>
      Some(OfCourse(student, course, paid, at, means, comment))
    case _ => None
  }

  /** The mutation of the ledger a request asks for. */
  function Asked(q: Request): (op: Operations.Operation)
    ensures Idempotent(op) && op.student == q.wish.student
  {
    match q.wish
    case RecordPayment(student, course, targets, paid, at, _, _) =>
      Operations.Pay(student, course, targets, paid, at, q.recorder)
    case AllocateCredit(student, enrollment, requested) => Operations.AllocateCourse(student, enrollment, requested)
  }

  /** A stored result, with its request's recorder, key and fingerprint. */
  datatype Row = Row(id: nat, owner: nat, request: Request, fingerprint: Fingerprint)

  datatype Outcome = Recorded(id: nat) | Replayed(id: nat) | Mismatch | Rejected(error: LedgerError) | Unexplained

  /** Where a transaction stands. */
  datatype Phase =
    | Arrived
    | Locked
    | KeyUnused
    | Saved
    | Violated
    | KeyTaken
    | Written(row: Row)
    | Decided(outcome: Outcome)
    | Done(outcome: Outcome)
    | RolledBack

  /** What a transaction wrote and did not commit: the tables it read, and what it made of
      them. */
  datatype Change = Change(base: Db, own: Db)

  datatype Attempt = Attempt(request: Request, fingerprint: Fingerprint, phase: Phase, change: Option<Change>)

  datatype State = State(attempts: seq<Attempt>, rows: seq<Row>, nextId: nat, db: Db)

  datatype Move =
    | Arrive(request: Request)
    | Lock(i: nat)
    | Look(i: nat)
    | Write(i: nat)
    | Flush(i: nat)
    | Restore(i: nat)
    | LookAgain(i: nat)
    | End(i: nat, commit: bool)
    | Crash(i: nat)

  function Start(db: Db): State { State([], [], 0, db) }

  /** Holds its student's row lock. */
  predicate Active(p: Phase) { !p.Arrived? && !p.Done? && !p.RolledBack? }

  /** Stored in the same table. */
  predicate SameKind(q: Request, r: Request) { q.wish.RecordPayment? == r.wish.RecordPayment? }

  predicate SameKey(r: Row, q: Request) {
    q.key.Some? && r.request.key == q.key && r.request.recorder == q.recorder && SameKind(r.request, q)
  }

  function Find(rows: seq<Row>, q: Request): Option<Row> {
    if rows == [] then None else if SameKey(rows[0], q) then Some(rows[0]) else Find(rows[1..], q)
  }

  /** `_replay`. */
  function Replay(r: Row, a: Attempt): Outcome {
    if r.fingerprint != a.fingerprint && (LegacyOf(a.request).None? || r.fingerprint != LegacyOf(a.request).value)
      then Mismatch
    else Replayed(r.id)
  }

  function Set(s: State, i: nat, a: Attempt): State
    requires i < |s.attempts|
  {
    s.(attempts := s.attempts[i := a])
  }

  function Become(s: State, i: nat, p: Phase): State
    requires i < |s.attempts|
  {
    Set(s, i, s.attempts[i].(phase := p))
  }

  /** The transaction is over; what it did not commit is gone. */
  function Ended(s: State, i: nat, p: Phase): State
    requires i < |s.attempts|
  {
    Set(s, i, s.attempts[i].(phase := p, change := None))
  }

  /** The tables as transaction `i` sees them, and leaves them when it commits. */
  function Seen(s: State, i: nat): Db
    requires i < |s.attempts|
  {
    match s.attempts[i].change
    case None => s.db
    case Some(c) => Rebase(s.db, c.base, c.own)
  }

  predicate Blocked(s: State, i: nat)
    requires i < |s.attempts|
  {
    exists j :: 0 <= j < |s.attempts| && j != i && Active(s.attempts[j].phase)
             && s.attempts[j].request.wish.student == s.attempts[i].request.wish.student
  }

  /** Another transaction has stored the key and not ended yet: the index makes the
      writer wait for it. */
  predicate Awaits(s: State, i: nat)
    requires i < |s.attempts|
  {
    exists j ::
      0 <= j < |s.attempts| && j != i && s.attempts[j].phase.Written? &&
      SameKey(s.attempts[j].phase.row, s.attempts[i].request)
  }

  /** The mutation inside the savepoint, flushed before the key is. */
  function AfterWrite(s: State, i: nat): State
    requires i < |s.attempts|
  {
    var a, op := s.attempts[i], Asked(s.attempts[i].request);
    match Operations.ErrorOf(Seen(s, i), op)
    case Some(e) => Become(s, i, Decided(Rejected(e)))
    case None => Set(s, i, a.(phase := Saved, change := Some(Change(s.db, Operations.Next(Seen(s, i), op)))))
  }

  /** Storing the key. */
  function AfterFlush(s: State, i: nat): State
    requires i < |s.attempts|
  {
    var q := s.attempts[i].request;
    if Find(s.rows, q).Some? then Become(s, i, Violated)
    else if Awaits(s, i) then s
    else Become(s, i, Written(Row(s.nextId, i, q, s.attempts[i].fingerprint))).(nextId := s.nextId + 1)
  }

  function AfterEnd(s: State, i: nat, commit: bool): State
    requires i < |s.attempts|
  {
    match s.attempts[i].phase
    case Written(row) => if commit then Ended(s, i, Done(Recorded(row.id))).(rows := s.rows + [row], db := Seen(s, i))
      else Ended(s, i, RolledBack)
    case Decided(o) => if commit then Ended(s, i, Done(o)).(db := Seen(s, i)) else Ended(s, i, RolledBack)
    case _ => s
  }

  /** The fingerprint is taken first; what cannot be addressed is turned down at once. */
  function Arriving(db: Db, q: Request): Attempt {
    Attempt(q, FingerprintOf(db, q), if Unaddressed(db, q) then Done(Rejected(InvalidTarget)) else Arrived, None)
  }

  /** One step of one transaction; a step that is not possible now changes nothing. */
  function Step(s: State, m: Move): State {
    match m
    case Arrive(q) => s.(attempts := s.attempts + [Arriving(s.db, q)])
    case Lock(i) =>
      if i < |s.attempts| && s.attempts[i].phase.Arrived? && !Blocked(s, i) then Become(s, i, Locked) else s
    case Look(i) =>
      if i < |s.attempts| && s.attempts[i].phase.Locked? then
        var found := Find(s.rows, s.attempts[i].request);
        Become(s, i, if found.Some? then Decided(Replay(found.value, s.attempts[i])) else KeyUnused)
      else s
    case Write(i) => if i < |s.attempts| && s.attempts[i].phase.KeyUnused? then AfterWrite(s, i) else s
    case Flush(i) => if i < |s.attempts| && s.attempts[i].phase.Saved? then AfterFlush(s, i) else s
    case Restore(i) =>
      if i < |s.attempts| && s.attempts[i].phase.Violated?
      then Set(s, i, s.attempts[i].(phase := KeyTaken, change := None)) else s
    case LookAgain(i) =>
      if i < |s.attempts| && s.attempts[i].phase.KeyTaken? then
        var winner := Find(s.rows, s.attempts[i].request);
        Become(s, i, Decided(if winner.Some? then Replay(winner.value, s.attempts[i]) else Unexplained))
      else s
    case End(i, commit) => if i < |s.attempts| then AfterEnd(s, i, commit) else s
    case Crash(i) =>
      if i < |s.attempts| && Active(s.attempts[i].phase) then Ended(s, i, RolledBack) else s
  }

  /** Any interleaving of any number of transactions. */
  function Run(db: Db, moves: seq<Move>): State {
    if moves == [] then Start(db) else Step(Run(db, moves[..|moves| - 1]), moves[|moves| - 1])
  }

  // ---------------------------------------------------------------------------
  // The invariant of the keys
  // ---------------------------------------------------------------------------

  /** A committed row is the recorded result of its own attempt. */
  predicate RowOk(s: State, r: Row) {
    && r.id < s.nextId && r.owner < |s.attempts|
    && r.request == s.attempts[r.owner].request && r.fingerprint == s.attempts[r.owner].fingerprint
    && s.attempts[r.owner].phase == Done(Recorded(r.id))
  }

  ghost predicate Answers(s: State, a: Attempt, id: nat) {
    exists k ::
      0 <= k < |s.rows| && s.rows[k].id == id && SameKey(s.rows[k], a.request) && Replay(s.rows[k], a) == Replayed(id)
  }

  ghost predicate OutcomeOk(s: State, i: nat, o: Outcome)
    requires i < |s.attempts|
  {
    match o
    case Replayed(id) => Answers(s, s.attempts[i], id)
    case Unexplained => false
    case Recorded(id) => exists k :: 0 <= k < |s.rows| && s.rows[k].id == id && s.rows[k].owner == i
    case _ => true
  }

  /** Whoever has the key has it for another student. */
  ghost predicate OthersHaveKey(s: State, q: Request) {
    forall k :: 0 <= k < |s.rows| && SameKey(s.rows[k], q) ==> s.rows[k].request.wish.student != q.wish.student
  }

  ghost predicate KeyIsStored(s: State, q: Request) {
    exists k :: 0 <= k < |s.rows| && SameKey(s.rows[k], q)
  }

  ghost predicate AttemptOk(s: State, i: nat)
    requires i < |s.attempts|
  {
    var q := s.attempts[i].request;
    match s.attempts[i].phase
    case KeyUnused => OthersHaveKey(s, q)
    case Saved => OthersHaveKey(s, q)
    case Violated => KeyIsStored(s, q) && OthersHaveKey(s, q)
    case KeyTaken => KeyIsStored(s, q) && OthersHaveKey(s, q)
    case Written(r) =>
      && r.id < s.nextId && r.owner == i && r.request == q && r.fingerprint == s.attempts[i].fingerprint
      && (forall k :: 0 <= k < |s.rows| ==> !SameKey(s.rows[k], q) && s.rows[k].id != r.id)
    case Decided(o) => !o.Recorded? && OutcomeOk(s, i, o)
    case Done(o) => OutcomeOk(s, i, o)
    case _ => true
  }

  predicate KeysDiffer(a: Row, b: Row) {
    && a.id != b.id
    && (a.request.key.None? || a.request.key != b.request.key || a.request.recorder != b.request.recorder
        || !SameKind(a.request, b.request))
  }

  predicate Apart(s: State, i: nat, j: nat)
    requires i < |s.attempts| && j < |s.attempts|
  {
    var a, b := s.attempts[i], s.attempts[j];
    && (Active(a.phase) && Active(b.phase) ==> a.request.wish.student != b.request.wish.student)
    && (a.phase.Written? && b.phase.Written? ==> KeysDiffer(a.phase.row, b.phase.row))
  }

  ghost predicate Safe(s: State) {
    && (forall k :: 0 <= k < |s.rows| ==> RowOk(s, s.rows[k]))
    && (forall k, l :: 0 <= k < l < |s.rows| ==> KeysDiffer(s.rows[k], s.rows[l]))
    && (forall i :: 0 <= i < |s.attempts| ==> AttemptOk(s, i))
    && (forall i, j :: 0 <= i < j < |s.attempts| ==> Apart(s, i, j))
  }

  lemma {:induction false} FindFinds(rows: seq<Row>, q: Request)
    ensures var f := Find(rows, q);
      && (f.Some? ==> exists k :: 0 <= k < |rows| && rows[k] == f.value && SameKey(rows[k], q))
      && (f.None? ==> forall k :: 0 <= k < |rows| ==> !SameKey(rows[k], q))
  {
    if rows != [] && !SameKey(rows[0], q) {
      FindFinds(rows[1..], q);
      var f := Find(rows[1..], q);
      if f.Some? {
        var k :| 0 <= k < |rows| - 1 && rows[1..][k] == f.value && SameKey(rows[1..][k], q);
        assert rows[k + 1] == f.value;
      }
    }
  }

  /** The other attempts, and their rows, do not notice a change of one attempt. */
  lemma OthersUnchanged(s: State, next: State, i: nat)
    requires Safe(s) && i < |s.attempts| && |next.attempts| == |s.attempts|
    requires next.rows == s.rows && s.nextId <= next.nextId
    requires forall j :: 0 <= j < |s.attempts| && j != i ==> next.attempts[j] == s.attempts[j]
    requires next.attempts[i].request == s.attempts[i].request
    requires next.attempts[i].fingerprint == s.attempts[i].fingerprint
    requires !s.attempts[i].phase.Done?
    ensures forall k :: 0 <= k < |next.rows| ==> RowOk(next, next.rows[k])
    ensures forall j :: 0 <= j < |next.attempts| && j != i ==> AttemptOk(next, j)
  {
    forall k | 0 <= k < |next.rows| ensures RowOk(next, next.rows[k]) {
      assert RowOk(s, s.rows[k]);
    }
    forall j | 0 <= j < |next.attempts| && j != i ensures AttemptOk(next, j) {
      assert AttemptOk(s, j);
    }
  }

  /** A phase that keeps or gives up the lock keeps the attempts apart. */
  lemma StillApart(s: State, next: State, i: nat)
    requires Safe(s) && i < |s.attempts| && |next.attempts| == |s.attempts|
    requires forall j :: 0 <= j < |s.attempts| && j != i ==> next.attempts[j] == s.attempts[j]
    requires next.attempts[i].request == s.attempts[i].request && !next.attempts[i].phase.Written?
    requires Active(next.attempts[i].phase) ==> Active(s.attempts[i].phase) || !Blocked(s, i)
    ensures forall j, k :: 0 <= j < k < |next.attempts| ==> Apart(next, j, k)
  {
    forall j, k | 0 <= j < k < |next.attempts| ensures Apart(next, j, k) {
      assert Apart(s, j, k);
    }
  }

  /** Steps that store and commit nothing. */
  lemma QuietStep(s: State, i: nat, a: Attempt)
    requires Safe(s) && i < |s.attempts| && !s.attempts[i].phase.Done? && !a.phase.Written?
    requires a.request == s.attempts[i].request && a.fingerprint == s.attempts[i].fingerprint
    requires Active(a.phase) ==> Active(s.attempts[i].phase) || !Blocked(s, i)
    requires AttemptOk(Set(s, i, a), i)
    ensures Safe(Set(s, i, a))
  {
    hide RowOk, AttemptOk, Apart, Active, Blocked;
    OthersUnchanged(s, Set(s, i, a), i);
    StillApart(s, Set(s, i, a), i);
  }

  lemma {:induction false} LookStep(s: State, i: nat)
    requires Safe(s) && i < |s.attempts| && s.attempts[i].phase.Locked?
    ensures Safe(Step(s, Look(i)))
  {
    hide AfterWrite, AfterFlush, AfterEnd, Awaits, Blocked;
    var q := s.attempts[i].request;
    FindFinds(s.rows, q);
    var found := Find(s.rows, q);
    var p := if found.Some? then Decided(Replay(found.value, s.attempts[i])) else KeyUnused;
    QuietStep(s, i, s.attempts[i].(phase := p)) by {
      hide Apart, RowOk, KeysDiffer;
      assert AttemptOk(Become(s, i, p), i);
    }
  }

  lemma {:induction false} LookAgainStep(s: State, i: nat)
    requires Safe(s) && i < |s.attempts| && s.attempts[i].phase.KeyTaken?
    ensures Safe(Step(s, LookAgain(i))) && Find(s.rows, s.attempts[i].request).Some?
  {
    hide AfterWrite, AfterFlush, AfterEnd, Awaits, Blocked;
    var q := s.attempts[i].request;
    FindFinds(s.rows, q);
    assert AttemptOk(s, i);
    var winner := Find(s.rows, q);
    QuietStep(s, i, s.attempts[i].(phase := Decided(Replay(winner.value, s.attempts[i])))) by {
      hide Apart, RowOk, KeysDiffer;
    }
  }

  lemma {:induction false} WriteStep(s: State, i: nat)
    requires Safe(s) && i < |s.attempts| && s.attempts[i].phase.KeyUnused?
    ensures Safe(AfterWrite(s, i))
  {
    hide Apart, RowOk, KeysDiffer, Seen, Operations.ErrorOf, Operations.Next;
    assert AttemptOk(s, i);
    QuietStep(s, i, AfterWrite(s, i).attempts[i]);
  }

  lemma {:induction false} RestoreStep(s: State, i: nat)
    requires Safe(s) && i < |s.attempts| && s.attempts[i].phase.Violated?
    ensures Safe(Step(s, Restore(i)))
  {
    hide Apart, RowOk, KeysDiffer;
    assert AttemptOk(s, i);
    QuietStep(s, i, Step(s, Restore(i)).attempts[i]);
  }

  lemma {:induction false} StoreStep(s: State, i: nat)
    requires Safe(s) && i < |s.attempts| && s.attempts[i].phase.Saved?
    requires Find(s.rows, s.attempts[i].request).None? && !Awaits(s, i)
    ensures Safe(AfterFlush(s, i))
  {
    var r := Row(s.nextId, i, s.attempts[i].request, s.attempts[i].fingerprint);
    var next := AfterFlush(s, i);
    FindFinds(s.rows, s.attempts[i].request);
    OthersUnchanged(s, next, i);
    forall k | 0 <= k < |s.rows| ensures s.rows[k].id != r.id { assert RowOk(s, s.rows[k]); }
    assert AttemptOk(next, i);
    forall j, k | 0 <= j < k < |next.attempts| ensures Apart(next, j, k) {
      assert Apart(s, j, k);
      assert AttemptOk(s, j) && AttemptOk(s, k);
    }
  }

  lemma {:induction false} ViolatedStep(s: State, i: nat)
    requires Safe(s) && i < |s.attempts| && s.attempts[i].phase.Saved? && Find(s.rows, s.attempts[i].request).Some?
    ensures Safe(AfterFlush(s, i))
  {
    FindFinds(s.rows, s.attempts[i].request);
    assert AttemptOk(s, i);
    QuietStep(s, i, s.attempts[i].(phase := Violated)) by {
      hide Apart, RowOk, KeysDiffer;
    }
  }

  /** Committing: nobody else waits to look the key up under the same lock. */
  lemma {:induction false} CommitStep(s: State, i: nat)
    requires Safe(s) && i < |s.attempts| && s.attempts[i].phase.Written?
    ensures Safe(AfterEnd(s, i, true))
  {
    hide Seen;
    var r, n := s.attempts[i].phase.row, |s.rows|;
    var next := AfterEnd(s, i, true);
    assert AttemptOk(s, i);
    assert next.rows == s.rows + [r];
    forall k | 0 <= k < |next.rows| ensures RowOk(next, next.rows[k]) {
      if k < n { assert RowOk(s, s.rows[k]); }
    }
    forall k, l | 0 <= k < l < |next.rows| ensures KeysDiffer(next.rows[k], next.rows[l]) {
      if l == n { assert !SameKey(s.rows[k], s.attempts[i].request); }
    }
    forall j | 0 <= j < |next.attempts| ensures AttemptOk(next, j) {
      CommitSeen(s, i, j);
    }
    forall j, k | 0 <= j < k < |next.attempts| ensures Apart(next, j, k) { assert Apart(s, j, k); }
  }

  lemma {:induction false} CommitSeen(s: State, i: nat, j: nat)
    requires Safe(s) && i < |s.attempts| && s.attempts[i].phase.Written? && j < |s.attempts|
    ensures AttemptOk(AfterEnd(s, i, true), j)
  {
    hide Seen;
    var r, n := s.attempts[i].phase.row, |s.rows|;
    var next := AfterEnd(s, i, true);
    assert AttemptOk(s, i) && AttemptOk(s, j);
    assert next.rows[n] == r;
    assert forall k :: 0 <= k < n ==> next.rows[k] == s.rows[k];
    if j < i { assert Apart(s, j, i); }
    if i < j { assert Apart(s, i, j); }
    if j == i {
      assert next.rows[n].id == r.id && next.rows[n].owner == i;
    } else {
      OutcomesKept(s, next, j);
    }
  }

  lemma {:induction false} OutcomesKept(s: State, next: State, j: nat)
    requires j < |s.attempts| && j < |next.attempts|
    requires next.attempts[j].request == s.attempts[j].request
    requires next.attempts[j].fingerprint == s.attempts[j].fingerprint
    requires |s.rows| <= |next.rows| && forall k :: 0 <= k < |s.rows| ==> next.rows[k] == s.rows[k]
    ensures forall o :: OutcomeOk(s, j, o) ==> OutcomeOk(next, j, o)
    ensures KeyIsStored(s, s.attempts[j].request) ==> KeyIsStored(next, s.attempts[j].request)
  {
    forall o | OutcomeOk(s, j, o) ensures OutcomeOk(next, j, o) {
      match o {
        case Replayed(id) =>
          var a := s.attempts[j];
          var k :| 0 <= k < |s.rows| && s.rows[k].id == id && SameKey(s.rows[k], a.request) &&
            Replay(s.rows[k], a) == Replayed(id);
          assert next.rows[k] == s.rows[k];
        case Recorded(id) =>
          var k :| 0 <= k < |s.rows| && s.rows[k].id == id && s.rows[k].owner == j;
          assert next.rows[k] == s.rows[k];
        case _ =>
      }
    }
    if k :| 0 <= k < |s.rows| && SameKey(s.rows[k], s.attempts[j].request) { assert next.rows[k] == s.rows[k]; }
  }

  lemma {:induction false} ArriveStep(s: State, q: Request)
    requires Safe(s)
    ensures Safe(Step(s, Arrive(q)))
  {
    hide AfterWrite, AfterFlush, AfterEnd, Awaits, Blocked;
    var next := Step(s, Arrive(q));
    forall k | 0 <= k < |next.rows| ensures RowOk(next, next.rows[k]) { assert RowOk(s, s.rows[k]); }
    forall j | 0 <= j < |next.attempts| ensures AttemptOk(next, j) {
      if j < |s.attempts| {
        assert AttemptOk(s, j);
        OutcomesKept(s, next, j);
      }
    }
    forall j, k | 0 <= j < k < |next.attempts| ensures Apart(next, j, k) {
      if k < |s.attempts| { assert Apart(s, j, k); }
    }
  }

  lemma {:induction false} DecidedStep(s: State, i: nat, commit: bool)
    requires Safe(s) && i < |s.attempts| && s.attempts[i].phase.Decided?
    ensures Safe(AfterEnd(s, i, commit))
  {
    hide Seen;
    assert AttemptOk(s, i);
    var o := s.attempts[i].phase.outcome;
    var p := if commit then Done(o) else RolledBack;
    OutcomesKept(s, Ended(s, i, p), i);
    QuietStep(s, i, s.attempts[i].(phase := p, change := None));
    TablesAreApart(Ended(s, i, p), Seen(s, i));
  }

  lemma TablesAreApart(s: State, db: Db)
    requires Safe(s)
    ensures Safe(s.(db := db))
  {
    var next := s.(db := db);
    forall k | 0 <= k < |next.rows| ensures RowOk(next, next.rows[k]) { assert RowOk(s, s.rows[k]); }
    forall j | 0 <= j < |next.attempts| ensures AttemptOk(next, j) {
      assert AttemptOk(s, j);
      OutcomesKept(s, next, j);
    }
    forall j, k | 0 <= j < k < |next.attempts| ensures Apart(next, j, k) { assert Apart(s, j, k); }
  }

  lemma {:induction false} StepIsSafe(s: State, m: Move)
    requires Safe(s)
    ensures Safe(Step(s, m))
  {
    hide Safe, AfterWrite;
    match m {
      case Arrive(q) => ArriveStep(s, q);
      case Lock(i) => if Step(s, m) != s { LockStep(s, i); }
      case Look(i) => if Step(s, m) != s { LookStep(s, i); }
      case Write(i) => if Step(s, m) != s { WriteStep(s, i); }
      case Flush(i) =>
        if Step(s, m) != s {
          if Find(s.rows, s.attempts[i].request).Some? { ViolatedStep(s, i); } else { StoreStep(s, i); }
        }
      case Restore(i) => if Step(s, m) != s { RestoreStep(s, i); }
      case LookAgain(i) => if Step(s, m) != s { LookAgainStep(s, i); }
      case End(i, commit) =>
        if Step(s, m) != s {
          if s.attempts[i].phase.Decided? { DecidedStep(s, i, commit); }
          else if commit { CommitStep(s, i); }
          else { GivenUp(s, i); }
        }
      case Crash(i) => if Step(s, m) != s { GivenUp(s, i); }
    }
  }

  lemma LockStep(s: State, i: nat)
    requires Safe(s) && i < |s.attempts| && s.attempts[i].phase.Arrived? && !Blocked(s, i)
    ensures Safe(Become(s, i, Locked))
  {
    QuietStep(s, i, s.attempts[i].(phase := Locked));
  }

  lemma GivenUp(s: State, i: nat)
    requires Safe(s) && i < |s.attempts| && Active(s.attempts[i].phase)
    ensures Safe(Ended(s, i, RolledBack))
  {
    QuietStep(s, i, s.attempts[i].(phase := RolledBack, change := None));
  }

  lemma {:induction false} RunIsSafe(db: Db, moves: seq<Move>)
    ensures Safe(Run(db, moves))
  {
    hide Step;
    if moves != [] {
      RunIsSafe(db, moves[..|moves| - 1]);
      StepIsSafe(Run(db, moves[..|moves| - 1]), moves[|moves| - 1]);
    }
  }

  // ---------------------------------------------------------------------------
  // The invariant of the tables
  // ---------------------------------------------------------------------------

  /** The mutations whose results are stored, in commit order. */
  function Committed(rows: seq<Row>): seq<Operations.Operation> {
    seq(|rows|, k requires 0 <= k < |rows| => Asked(rows[k].request))
  }

  /** Each mutation is accepted where it stands. */
  ghost predicate AllAccepted(db: Db, ops: seq<Operations.Operation>) {
    forall k :: 0 <= k < |ops| ==> Operations.ErrorOf(Operations.Run(db, ops[..k]), ops[k]).None?
  }

  predicate InSavepoint(p: Phase) { p.Saved? || p.Violated? || p.Written? }

  /** Inside the savepoint a transaction has made its accepted mutation on the tables it
      read, and since then only other students' tables have changed.  Outside it has
      changed nothing. */
  ghost predicate ChangeOk(s: State, i: nat)
    requires i < |s.attempts|
  {
    var a, op := s.attempts[i], Asked(s.attempts[i].request);
    match a.change
    case None => !InSavepoint(a.phase)
    case Some(c) =>
      && InSavepoint(a.phase)
      && Operations.Good(c.base) && Operations.ErrorOf(c.base, op).None? && c.own == Operations.Next(c.base, op)
      && SameFor(c.base, s.db, op.student)
  }

  ghost predicate Sound(db: Db, s: State) {
    && Operations.Good(db) && s.db == Operations.Run(db, Committed(s.rows)) && AllAccepted(db, Committed(s.rows))
    && forall i :: 0 <= i < |s.attempts| ==> ChangeOk(s, i)
  }

  lemma SoundIsGood(db: Db, s: State)
    requires Sound(db, s)
    ensures Operations.Good(s.db)
  {
    hide Operations.Good, Operations.Run, ChangeOk, Committed;
    Runs.RunFromGood(db, Committed(s.rows));
  }

  /** Steps that leave the committed tables as they are. */
  lemma TablesKept(db: Db, s: State, i: nat, a: Attempt)
    requires Sound(db, s) && i < |s.attempts| && ChangeOk(Set(s, i, a), i)
    ensures Sound(db, Set(s, i, a))
  {
    hide Operations.Good, Operations.Run, Operations.Next, Operations.ErrorOf, SameFor, Committed, AllAccepted;
    var next := Set(s, i, a);
    forall j | 0 <= j < |next.attempts| ensures ChangeOk(next, j) {
      if j != i { assert ChangeOk(s, j); }
    }
  }

  lemma {:induction false} WriteKeepsTables(db: Db, s: State, i: nat)
    requires Sound(db, s) && i < |s.attempts| && s.attempts[i].phase.KeyUnused?
    ensures Sound(db, AfterWrite(s, i))
  {
    hide Operations.Good, Operations.Run, Operations.Next, Operations.ErrorOf, SameFor, Committed, AllAccepted, Sound;
    SoundIsGood(db, s);
    ChangeOfSound(db, s, i);
    SameForSelf(s.db, Asked(s.attempts[i].request).student);
    TablesKept(db, s, i, AfterWrite(s, i).attempts[i]);
  }

  lemma ChangeOfSound(db: Db, s: State, i: nat)
    requires Sound(db, s) && i < |s.attempts|
    ensures ChangeOk(s, i)
  {
  }

  lemma OneMoreCommitted(rows: seq<Row>, row: Row)
    ensures Committed(rows + [row]) == Committed(rows) + [Asked(row.request)]
  {
  }

  lemma OneMoreRun(db: Db, ops: seq<Operations.Operation>, op: Operations.Operation)
    ensures Operations.Run(db, ops + [op]) == Operations.Next(Operations.Run(db, ops), op)
    ensures AllAccepted(db, ops) && Operations.ErrorOf(Operations.Run(db, ops), op).None? ==>
      AllAccepted(db, ops + [op])
  {
    hide Operations.Next, Operations.ErrorOf;
    assert (ops + [op])[..|ops|] == ops;
    forall k | 0 <= k < |ops| ensures (ops + [op])[..k] == ops[..k] {}
  }

  /** Another student's commit leaves a change inside a savepoint as good as it was. */
  lemma {:induction false} OtherChangeKept(db: Db, s: State, next: State, i: nat, j: nat)
    requires Safe(s) && Sound(db, s) && i < |s.attempts| && j < |s.attempts| && i != j && Active(s.attempts[i].phase)
    requires |next.attempts| == |s.attempts| && next.attempts[j] == s.attempts[j]
    requires next.db == Operations.Next(s.db, Asked(s.attempts[i].request))
    ensures ChangeOk(next, j)
  {
    hide Operations.Good, Operations.Run, Operations.Next, Operations.ErrorOf, SameFor, Committed, AllAccepted,
      AttemptOk, RowOk;
    assert ChangeOk(s, j);
    if s.attempts[j].change.Some? {
      assert Apart(s, i, j) || Apart(s, j, i);
      SoundIsGood(db, s);
      OthersUnaffected(s.db, Asked(s.attempts[i].request), s.attempts[j].request.wish.student);
      SameForTransitive(s.attempts[j].change.value.base, s.db, next.db, s.attempts[j].request.wish.student);
    }
  }

  lemma {:induction false} CommitKeepsTables(db: Db, s: State, i: nat)
    requires Safe(s) && Sound(db, s) && i < |s.attempts| && s.attempts[i].phase.Written?
    ensures Sound(db, AfterEnd(s, i, true))
  {
    hide Operations.Good, Operations.Run, Operations.Next, Operations.ErrorOf, SameFor, Committed, AllAccepted, Rebase,
      Apart, RowOk;
    var next, op, row := AfterEnd(s, i, true), Asked(s.attempts[i].request), s.attempts[i].phase.row;
    assert ChangeOk(s, i) && AttemptOk(s, i);
    var c := s.attempts[i].change.value;
    SoundIsGood(db, s);
    RebaseIsNext(c.base, s.db, op);
    assert next.db == Operations.Next(s.db, op);
    OneMoreCommitted(s.rows, row);
    OneMoreRun(db, Committed(s.rows), op);
    forall j | 0 <= j < |next.attempts| ensures ChangeOk(next, j) {
      if j != i { OtherChangeKept(db, s, next, i, j); }
    }
  }

  lemma {:induction false} EndKeepsTables(db: Db, s: State, i: nat, commit: bool)
    requires Safe(s) && Sound(db, s) && i < |s.attempts|
    ensures Sound(db, AfterEnd(s, i, commit))
  {
    hide Safe, Sound, Rebase;
    ChangeOfSound(db, s, i);
    if s.attempts[i].phase.Written? && commit {
      CommitKeepsTables(db, s, i);
    } else if s.attempts[i].phase.Written? || s.attempts[i].phase.Decided? {
      var next := AfterEnd(s, i, commit);
      assert next == Set(s, i, next.attempts[i]);
      TablesKept(db, s, i, next.attempts[i]);
    }
  }

  lemma {:induction false} ArriveKeepsTables(db: Db, s: State, q: Request)
    requires Sound(db, s)
    ensures Sound(db, Step(s, Arrive(q)))
  {
    hide Operations.Good, Operations.Run, Operations.Next, Operations.ErrorOf, SameFor, Committed, AllAccepted;
    var next := Step(s, Arrive(q));
    forall j | 0 <= j < |next.attempts| ensures ChangeOk(next, j) {
      if j < |s.attempts| { assert ChangeOk(s, j); }
    }
  }

  lemma {:induction false} FlushKeepsTables(db: Db, s: State, i: nat)
    requires Sound(db, s) && i < |s.attempts| && s.attempts[i].phase.Saved?
    ensures Sound(db, AfterFlush(s, i))
  {
    hide Operations.Good, Operations.Run, Operations.Next, Operations.ErrorOf, SameFor, Committed, AllAccepted;
    var next := AfterFlush(s, i);
    forall j | 0 <= j < |next.attempts| ensures ChangeOk(next, j) { assert ChangeOk(s, j); }
  }

  lemma {:induction false} StepIsSound(db: Db, s: State, m: Move)
    requires Safe(s) && Sound(db, s)
    ensures Sound(db, Step(s, m))
  {
    hide Safe, Sound, AfterWrite, AfterFlush, AfterEnd, Find, Blocked, Replay, SameFor, Operations.Next,
      Operations.Good, Operations.ErrorOf;
    match m {
      case Arrive(q) => ArriveKeepsTables(db, s, q);
      case Write(i) => if Step(s, m) != s { WriteKeepsTables(db, s, i); }
      case Flush(i) => if Step(s, m) != s { FlushKeepsTables(db, s, i); }
      case End(i, commit) => if i < |s.attempts| { EndKeepsTables(db, s, i, commit); }
      case Lock(i) => OtherStepKeepsTables(db, s, m, i);
      case Look(i) => OtherStepKeepsTables(db, s, m, i);
      case Restore(i) => OtherStepKeepsTables(db, s, m, i);
      case LookAgain(i) => OtherStepKeepsTables(db, s, m, i);
      case Crash(i) => OtherStepKeepsTables(db, s, m, i);
    }
  }

  lemma {:induction false} OtherStepKeepsTables(db: Db, s: State, m: Move, i: nat)
    requires Sound(db, s) && (m == Lock(i) || m == Look(i) || m == Restore(i) || m == LookAgain(i) || m == Crash(i))
    ensures Sound(db, Step(s, m))
  {
    hide Sound, Find, Blocked, Replay, SameFor, Operations.Next, Operations.Good, Operations.ErrorOf;
    if i < |s.attempts| && Step(s, m) != s {
      ChangeOfSound(db, s, i);
      TablesKept(db, s, i, Step(s, m).attempts[i]);
    }
  }

  lemma {:induction false} RunIsSound(db: Db, moves: seq<Move>)
    requires Operations.Good(db)
    ensures Sound(db, Run(db, moves))
  {
    hide Step, Operations.Good, Sound, Safe;
    if moves == [] {
      StartIsSound(db);
    } else {
      RunIsSound(db, moves[..|moves| - 1]);
      RunIsSafe(db, moves[..|moves| - 1]);
      StepIsSound(db, Run(db, moves[..|moves| - 1]), moves[|moves| - 1]);
    }
  }

  lemma StartIsSound(db: Db)
    requires Operations.Good(db)
    ensures Sound(db, Start(db))
  {
    assert Committed([]) == [];
  }

  // ---------------------------------------------------------------------------
  // What callers may rely on
  // ---------------------------------------------------------------------------

  /** Some interleaving of some transactions leads here from the tables `db`. */
  ghost predicate Reachable(db: Db, s: State) { exists moves :: Run(db, moves) == s }

  lemma ReachableIsSafe(db: Db, s: State)
    requires Reachable(db, s)
    ensures Safe(s)
  {
    var moves :| Run(db, moves) == s;
    RunIsSafe(db, moves);
  }

  lemma ReachableIsSound(db: Db, s: State)
    requires Reachable(db, s) && Operations.Good(db)
    ensures Sound(db, s)
  {
    hide Sound, Operations.Good;
    var moves :| Run(db, moves) == s;
    RunIsSound(db, moves);
  }

  /** The committed tables are those of the stored results' mutations made one after the
      other, each accepted and each made once: nothing of a losing, replaying, mismatching,
      rejected or crashed attempt is left in any table. */
  lemma {:induction false} TablesAreARun(db: Db, s: State)
    requires Operations.Good(db) && Reachable(db, s)
    ensures s.db == Operations.Run(db, Committed(s.rows)) && AllAccepted(db, Committed(s.rows))
    ensures forall k :: 0 <= k < |s.rows| ==>
      s.rows[k].owner < |s.attempts| && s.rows[k].request == s.attempts[s.rows[k].owner].request
    ensures forall k, l :: 0 <= k < l < |s.rows| ==> s.rows[k].owner != s.rows[l].owner
  {
    hide Reachable, Operations.Run, Operations.Good, Committed, AllAccepted, ChangeOk;
    ReachableIsSafe(db, s);
    ReachableIsSound(db, s);
    forall k | 0 <= k < |s.rows|
      ensures s.rows[k].owner < |s.attempts| && s.rows[k].request == s.attempts[s.rows[k].owner].request
      ensures s.attempts[s.rows[k].owner].phase == Done(Recorded(s.rows[k].id))
    {
      assert RowOk(s, s.rows[k]);
    }
    forall k, l | 0 <= k < l < |s.rows|
      ensures s.rows[k].owner != s.rows[l].owner
    {
      assert KeysDiffer(s.rows[k], s.rows[l]);
    }
  }

  /** One payment entry for each stored payment, in commit order. */
  function PaymentEntries(first: nat, rows: seq<Row>): seq<Entry> {
    if rows == [] then []
    else
      var front, request := PaymentEntries(first, rows[..|rows| - 1]), rows[|rows| - 1].request;
      match request.wish
      case RecordPayment(student, _, _, paid, at, _, _) =>
        front + [Entry(first + |front|, student, Payment, paid, at, request.recorder, None, false)]
      case AllocateCredit(_, _, _) => front
  }

  lemma {:induction false} EntriesOfRun(db: Db, rows: seq<Row>)
    requires Operations.Good(db) && AllAccepted(db, Committed(rows))
    ensures Operations.Run(db, Committed(rows)).entries == db.entries + PaymentEntries(|db.entries|, rows)
  {
    hide Operations.Good, Operations.ErrorOf, Operations.Next, Operations.Run;
    if rows == [] {
      NothingRun(db);
    } else {
      var front, last := rows[..|rows| - 1], rows[|rows| - 1];
      var ops, op := Committed(front), Asked(last.request);
      OneMoreCommitted(front, last);
      assert rows == front + [last];
      OneMoreRun(db, ops, op);
      AcceptedBefore(db, ops, op);
      EntriesOfRun(db, front);
      Runs.RunFromGood(db, ops);
      Rules.EntriesWritten(Operations.Run(db, ops), op);
      OneMoreEntry(Operations.Run(db, ops), last.request);
    }
  }

  lemma NothingRun(db: Db)
    ensures Operations.Run(db, Committed([])).entries == db.entries + PaymentEntries(|db.entries|, [])
  {
    assert Committed([]) == [];
  }

  lemma AcceptedBefore(db: Db, ops: seq<Operations.Operation>, op: Operations.Operation)
    requires AllAccepted(db, ops + [op])
    ensures AllAccepted(db, ops) && Operations.ErrorOf(Operations.Run(db, ops), op).None?
  {
    hide Operations.ErrorOf, Operations.Run;
    var all := ops + [op];
    assert all[..|ops|] == ops && all[|ops|] == op;
    forall k | 0 <= k < |ops| ensures Operations.ErrorOf(Operations.Run(db, ops[..k]), ops[k]).None? {
      assert all[..k] == ops[..k] && all[k] == ops[k];
    }
  }

  lemma OneMoreEntry(db: Db, q: Request)
    requires Rules.IsAccepted(db, Asked(q))
    ensures Rules.Written(db, Asked(q)) == match q.wish
      case RecordPayment(student, _, _, paid, at, _, _) =>
        [Entry(|db.entries|, student, Payment, paid, at, q.recorder, None, false)]
      case AllocateCredit(_, _, _) => []
  {
    hide Operations.ErrorOf;
  }

  /** The entries of the committed tables are those there were and exactly one payment for
      each stored payment, with the student, the amount, the date and the recorder of its
      request. */
  lemma {:induction false} EachResultIsOneEntry(db: Db, s: State)
    requires Operations.Good(db) && Reachable(db, s)
    ensures s.db.entries == db.entries + PaymentEntries(|db.entries|, s.rows)
  {
    hide Reachable, Operations.Run, Operations.Good, Committed, AllAccepted, PaymentEntries;
    TablesAreARun(db, s);
    EntriesOfRun(db, s.rows);
  }

  /** An attempt the index turned down had written its whole mutation; once its savepoint is
      restored it sees the committed tables again. */
  lemma {:induction false} LosersWroteAndRestored(db: Db, s: State, i: nat)
    requires Operations.Good(db) && Reachable(db, s) && i < |s.attempts|
    ensures s.attempts[i].phase.Violated? ==>
      var op := Asked(s.attempts[i].request);
      && Seen(s, i) == Operations.Next(s.db, op) && Operations.ErrorOf(s.db, op).None?
      && Seen(s, i) != s.db
      && Seen(Step(s, Restore(i)), i) == s.db
    ensures s.attempts[i].phase.KeyTaken? || s.attempts[i].phase.Decided? ==> Seen(s, i) == s.db
  {
    hide Reachable, Operations.Run, Operations.Good, Operations.Next, Operations.ErrorOf, Committed, AllAccepted,
      Rebase, SameFor;
    ReachableIsSound(db, s);
    assert ChangeOk(s, i);
    if s.attempts[i].phase.Violated? {
      var c, op := s.attempts[i].change.value, Asked(s.attempts[i].request);
      SoundIsGood(db, s);
      RebaseIsNext(c.base, s.db, op);
      AcceptedWrites(s.db, op);
    }
  }

  /** The mutation inside the savepoint is the ledger's on the committed tables: turned down
      for the ledger's reason, or made and not yet seen by others. */
  lemma {:induction false} WritingFollowsTheLedger(db: Db, s: State, i: nat)
    requires Operations.Good(db) && Reachable(db, s) && i < |s.attempts| && s.attempts[i].phase.KeyUnused?
    ensures var next, op := Step(s, Write(i)), Asked(s.attempts[i].request);
      && next.db == s.db && next.rows == s.rows
      && match Operations.ErrorOf(s.db, op)
         case Some(e) => next.attempts[i].phase == Decided(Rejected(e)) && Seen(next, i) == s.db
         case None => next.attempts[i].phase == Saved && Seen(next, i) == Operations.Next(s.db, op)
  {
    hide Reachable, Operations.Run, Operations.Good, Operations.Next, Operations.ErrorOf, Committed, AllAccepted,
      Rebase, SameFor;
    ReachableIsSound(db, s);
    ChangeOfSound(db, s, i);
    SoundIsGood(db, s);
    var next, op := Step(s, Write(i)), Asked(s.attempts[i].request);
    if Operations.ErrorOf(s.db, op).None? {
      SameForSelf(s.db, op.student);
      RebaseIsNext(s.db, s.db, op);
    }
  }

  /** What an allocation writes inside its savepoint moves the amount its request names, off
      the student's wallet and onto the enrollment it names. */
  lemma {:induction false} AllocationMovesWhatWasAsked(db: Db, s: State, i: nat)
    requires Operations.Good(db) && Reachable(db, s) && i < |s.attempts| && s.attempts[i].phase.KeyUnused?
    requires s.attempts[i].request.wish.AllocateCredit? && s.attempts[i].request.wish.requested.Some?
    ensures var wish, next := s.attempts[i].request.wish, Step(s, Write(i));
      next.attempts[i].phase == Saved ==>
        && Wallet(Seen(next, i), wish.student) == Wallet(s.db, wish.student) - wish.requested.value
        && Withdrawals.EnrollmentDebt(Seen(next, i), wish.enrollment)
          == Withdrawals.EnrollmentDebt(s.db, wish.enrollment) - wish.requested.value
  {
    hide Reachable, Operations.Good, Operations.Next, Operations.ErrorOf, Wallet, Withdrawals.EnrollmentDebt;
    hide Seen, Step;
    ReachableIsSound(db, s);
    SoundIsGood(db, s);
    var wish := s.attempts[i].request.wish;
    WritingFollowsTheLedger(db, s, i);
    Rules.CourseCreditRule(s.db, wish.student, wish.enrollment, wish.requested);
  }

  /** A decided answer is what the caller is told once the transaction ends. */
  lemma EndingTellsTheDecision(s: State, i: nat)
    requires i < |s.attempts|
    ensures s.attempts[i].phase.Decided? ==>
      Step(s, End(i, true)).attempts[i].phase == Done(s.attempts[i].phase.outcome)
    ensures s.attempts[i].phase.Written? ==>
      && Step(s, End(i, true)).attempts[i].phase == Done(Recorded(s.attempts[i].phase.row.id))
      && Step(s, End(i, true)).rows == s.rows + [s.attempts[i].phase.row]
      && Step(s, End(i, true)).db == Seen(s, i)
  {
    hide Rebase;
  }

  /** An accepted payment or allocation changes the tables. */
  lemma {:induction false} AcceptedWrites(db: Db, op: Operations.Operation)
    requires Operations.Good(db) && Idempotent(op) && Operations.ErrorOf(db, op).None?
    ensures Operations.Next(db, op) != db
  {
    hide Payments.PaymentRows, Payments.OpenBalance, Payments.FirstTargetError, Concessions.CourseCreditError,
      Concessions.CourseCreditAmount,
         Crediting.CreditRows, Queries.CreditEntries, Queries.CourseCharges;
    if op.AllocateCourse? {
      Concessions.CourseCreditPlaces(db, op.student, op.enrollment, op.requested);
    }
  }

  /** What a finished attempt told its caller, when it succeeded. */
  function Told(s: State, i: nat): Option<nat>
    requires i < |s.attempts|
  {
    match s.attempts[i].phase
    case Done(Recorded(id)) => Some(id)
    case Done(Replayed(id)) => Some(id)
    case _ => None
  }

  /** One recorder sends one key for two requests of one kind. */
  predicate SameUse(q: Request, r: Request) {
    q.key.Some? && q.key == r.key && q.recorder == r.recorder && SameKind(q, r)
  }

  /** Under any interleaving a recorder's key has at most one committed result of a kind. */
  lemma {:induction false} OneResultPerKey(db: Db, s: State, k: nat, l: nat)
    requires Reachable(db, s) && k < |s.rows| && l < |s.rows|
    requires SameUse(s.rows[k].request, s.rows[l].request)
    ensures k == l
  {
    ReachableIsSafe(db, s);
    assert KeysDiffer(s.rows[k], s.rows[l]) || KeysDiffer(s.rows[l], s.rows[k]) || k == l;
  }

  lemma {:induction false} ToldIsRow(s: State, i: nat)
    requires Safe(s) && i < |s.attempts| && Told(s, i).Some? && s.attempts[i].request.key.Some?
    ensures exists k ::
      0 <= k < |s.rows| && s.rows[k].id == Told(s, i).value && SameKey(s.rows[k], s.attempts[i].request)
  {
    assert AttemptOk(s, i);
    var id := Told(s, i).value;
    if s.attempts[i].phase.outcome.Recorded? {
      var k :| 0 <= k < |s.rows| && s.rows[k].id == id && s.rows[k].owner == i;
      assert RowOk(s, s.rows[k]);
    }
  }

  /** All successes of one key tell the same result, whichever students were locked. */
  lemma {:induction false} EverySuccessTellsTheSame(db: Db, s: State, i: nat, j: nat)
    requires Reachable(db, s) && i < |s.attempts| && j < |s.attempts|
    requires SameUse(s.attempts[i].request, s.attempts[j].request)
    requires Told(s, i).Some? && Told(s, j).Some?
    ensures Told(s, i) == Told(s, j)
  {
    hide Reachable, Told;
    ReachableIsSafe(db, s);
    ToldIsRow(s, i);
    ToldIsRow(s, j);
    var k :| 0 <= k < |s.rows| && s.rows[k].id == Told(s, i).value && SameKey(s.rows[k], s.attempts[i].request);
    var l :| 0 <= l < |s.rows| && s.rows[l].id == Told(s, j).value && SameKey(s.rows[l], s.attempts[j].request);
    OneResultPerKey(db, s, k, l);
  }

  /** An attempt leaves a row behind exactly when it told its caller that it recorded one,
      and then that row alone. */
  lemma {:induction false} OnlyRecordersLeaveRows(db: Db, s: State, i: nat, k: nat)
    requires Reachable(db, s) && i < |s.attempts| && k < |s.rows|
    ensures s.rows[k].owner == i <==> s.attempts[i].phase == Done(Recorded(s.rows[k].id))
    ensures s.attempts[i].phase.Done? && s.attempts[i].phase.outcome.Recorded? ==>
      exists l :: 0 <= l < |s.rows| && s.rows[l].owner == i && s.rows[l].id == s.attempts[i].phase.outcome.id
  {
    hide Reachable;
    ReachableIsSafe(db, s);
    assert RowOk(s, s.rows[k]) && AttemptOk(s, i);
    if s.attempts[i].phase == Done(Recorded(s.rows[k].id)) {
      var l :| 0 <= l < |s.rows| && s.rows[l].id == s.rows[k].id && s.rows[l].owner == i;
      assert KeysDiffer(s.rows[k], s.rows[l]) || KeysDiffer(s.rows[l], s.rows[k]) || k == l;
    }
  }

  /** The same is asked for; the targets of a payment may come in another order, or a
      course may stand for the enrollment in it. */
  predicate SameWish(db: Db, a: Wish, b: Wish) {
    if a.RecordPayment? && b.RecordPayment? then
      && a.student == b.student && a.paid == b.paid && a.at == b.at && a.means == b.means && a.comment == b.comment
      && Targets(db, a).Success? && Targets(db, b).Success?
      && multiset(Targets(db, a).value) == multiset(Targets(db, b).value)
    else a == b
  }

  lemma SameEnrollmentsSamePrint(db: Db, next: Db, q: Request)
    requires next.enrollments == db.enrollments
    ensures FingerprintOf(next, q) == FingerprintOf(db, q) && Unaddressed(next, q) == Unaddressed(db, q)
  {
    if q.wish.RecordPayment? { FoundSame(db, next, q.wish.student, q.wish.course, 0); }
  }

  /** Attempts carry the fingerprints of their requests, and only those that can be
      addressed go beyond arriving. */
  ghost predicate Printed(db: Db, s: State) {
    && s.db.enrollments == db.enrollments
    && forall i :: 0 <= i < |s.attempts| ==>
         && s.attempts[i].fingerprint == FingerprintOf(db, s.attempts[i].request)
         && (Unaddressed(db, s.attempts[i].request) ==> s.attempts[i].phase == Done(Rejected(InvalidTarget)))
  }

  lemma {:induction false} StepIsPrinted(db: Db, s: State, m: Move)
    requires Printed(db, s)
    ensures Printed(db, Step(s, m))
  {
    hide FingerprintOf, Unaddressed, Find, Replay, Blocked, Awaits, Operations.Next, Operations.ErrorOf;
    if m.Arrive? { SameEnrollmentsSamePrint(db, s.db, m.request); }
  }

  lemma {:induction false} RunIsPrinted(db: Db, moves: seq<Move>)
    ensures Printed(db, Run(db, moves))
  {
    hide Step, Printed;
    if moves == [] {
      assert Printed(db, Start(db)) by { NothingPrinted(db); }
    } else {
      RunIsPrinted(db, moves[..|moves| - 1]);
      StepIsPrinted(db, Run(db, moves[..|moves| - 1]), moves[|moves| - 1]);
    }
  }

  lemma NothingPrinted(db: Db)
    ensures Printed(db, Start(db))
  {
  }

  /** Equal fingerprints mean that the same is asked for, and none is a legacy one. */
  lemma PrintsTell(db: Db, q: Request, r: Request)
    requires !Unaddressed(db, q) && !Unaddressed(db, r) && SameKind(q, r)
    ensures FingerprintOf(db, q) == FingerprintOf(db, r) ==> SameWish(db, q.wish, r.wish)
    ensures LegacyOf(r) != Some(FingerprintOf(db, q))
  {
    hide Targets;
  }

  /** A replay repeats a result recorded when the same was asked for, by the same recorder
      with the same key. */
  lemma {:induction false} ReplayIsTheSameRequest(db: Db, s: State, i: nat, id: nat)
    requires Reachable(db, s) && i < |s.attempts| && s.attempts[i].phase == Done(Replayed(id))
    ensures exists j :: 0 <= j < |s.attempts| && s.attempts[j].phase == Done(Recorded(id))
                     && SameUse(s.attempts[j].request, s.attempts[i].request)
                     && SameWish(db, s.attempts[j].request.wish, s.attempts[i].request.wish)
  {
    hide Reachable, FingerprintOf, LegacyOf, SameWish, Unaddressed;
    ReachableIsSafe(db, s);
    ReachableIsPrinted(db, s);
    assert AttemptOk(s, i);
    var a := s.attempts[i];
    var k :| 0 <= k < |s.rows| && s.rows[k].id == id && SameKey(s.rows[k], a.request) &&
      Replay(s.rows[k], a) == Replayed(id);
    assert RowOk(s, s.rows[k]);
    assert s.attempts[s.rows[k].owner].phase == Done(Recorded(id));
    PrintsTell(db, s.attempts[s.rows[k].owner].request, a.request);
  }

  /** The same wish has the same fingerprint. */
  lemma SameWishSamePrint(db: Db, q: Request, r: Request)
    requires !Unaddressed(db, q) && !Unaddressed(db, r) && SameKind(q, r)
    ensures SameWish(db, q.wish, r.wish) ==> FingerprintOf(db, q) == FingerprintOf(db, r)
  {
    hide Targets;
  }

  /** A request whose key is stored is decided as soon as it looks: it is told the stored
      result when the same is asked for, and turned down as a mismatch otherwise.  One whose
      key is not stored goes on. */
  lemma {:induction false} LookingUpDecides(db: Db, s: State, i: nat, k: nat)
    requires Reachable(db, s) && i < |s.attempts| && s.attempts[i].phase.Locked?
    ensures k < |s.rows| && SameUse(s.rows[k].request, s.attempts[i].request) ==>
      Step(s, Look(i)).attempts[i].phase == Decided(
        if SameWish(db, s.rows[k].request.wish, s.attempts[i].request.wish) then Replayed(s.rows[k].id) else Mismatch)
    ensures (forall l :: 0 <= l < |s.rows| ==> !SameUse(s.rows[l].request, s.attempts[i].request)) ==>
      Step(s, Look(i)).attempts[i].phase == KeyUnused
  {
    hide Reachable, FingerprintOf, LegacyOf, SameWish, Unaddressed, AfterWrite, AfterFlush, AfterEnd, Awaits, Blocked;
    hide Apart, AttemptOk, KeysDiffer;
    ReachableIsSafe(db, s);
    ReachableIsPrinted(db, s);
    var a := s.attempts[i];
    FindFinds(s.rows, a.request);
    var found := Find(s.rows, a.request);
    if k < |s.rows| && SameUse(s.rows[k].request, a.request) {
      var l :| 0 <= l < |s.rows| && s.rows[l] == found.value && SameKey(s.rows[l], a.request);
      OneResultPerKey(db, s, k, l);
      var owner := s.attempts[s.rows[k].owner];
      assert RowOk(s, s.rows[k]);
      PrintsTell(db, owner.request, a.request);
      SameWishSamePrint(db, owner.request, a.request);
    }
  }

  /** A result that an older version stored without targets is replayed to a request that
      names its course, with the same student, amount, date, method and comment, and to no
      request that names targets or differs in one of these. */
  lemma LegacyResultIsReplayed(r: Row, a: Attempt)
    requires r.fingerprint.OfCourse? && a.request.wish.RecordPayment? && !a.fingerprint.OfCourse?
    ensures var wish, stored := a.request.wish, r.fingerprint;
      Replay(r, a) == (
        if wish.targets.None? && wish.student == stored.student && wish.course == stored.course
          && wish.paid == stored.paid && wish.at == stored.at && wish.means == stored.means
          && wish.comment == stored.comment
        then Replayed(r.id) else Mismatch)
  {
  }

  lemma ReachableIsPrinted(db: Db, s: State)
    requires Reachable(db, s)
    ensures Printed(db, s)
  {
    hide Printed, Run;
    var moves :| Run(db, moves) == s;
    RunIsPrinted(db, moves);
  }

  /** The loser of the index always finds the winner, and it lost to another student:
      two requests for one student never race past the lock. */
  lemma {:induction false} LosersFindTheirWinner(db: Db, s: State, i: nat)
    requires Reachable(db, s) && i < |s.attempts| && (s.attempts[i].phase.Violated? || s.attempts[i].phase.KeyTaken?)
    ensures var q := s.attempts[i].request;
      Find(s.rows, q).Some? && SameKey(Find(s.rows, q).value, q) &&
        Find(s.rows, q).value.request.wish.student != q.wish.student
  {
    hide Reachable;
    ReachableIsSafe(db, s);
    FindFinds(s.rows, s.attempts[i].request);
    assert AttemptOk(s, i);
  }

  // ---------------------------------------------------------------------------
  // Two requests with one key
  // ---------------------------------------------------------------------------

  lemma ReachableNext(db: Db, s: State, m: Move)
    requires Reachable(db, s)
    ensures Reachable(db, Step(s, m))
  {
    hide Step;
    var moves :| Run(db, moves) == s;
    assert (moves + [m])[..|moves|] == moves;
    assert Run(db, moves + [m]) == Step(s, m);
  }

  lemma ReachableStart(db: Db)
    ensures Reachable(db, Start(db))
  {
    assert Run(db, []) == Start(db);
  }

  lemma AcceptedIsAddressed(db: Db, q: Request)
    requires Operations.ErrorOf(db, Asked(q)).None?
    ensures !Unaddressed(db, q)
  {
    hide Payments.FirstTargetError, Concessions.CourseCreditError;
  }

  /** Two attempts on the tables `db` that have come as far as `p`. */
  function Pair(db: Db, q: Request, r: Request, p: Phase): State {
    State([Attempt(q, FingerprintOf(db, q), p, None), Attempt(r, FingerprintOf(db, r), p, None)], [], 0, db)
  }

  /** Requests for two students can look their keys up before either stores it. */
  lemma {:induction false} BothLooked(db: Db, q: Request, r: Request)
    requires q.wish.student != r.wish.student && !Unaddressed(db, q) && !Unaddressed(db, r)
    ensures Reachable(db, Pair(db, q, r, KeyUnused))
  {
    hide Reachable, FingerprintOf, Unaddressed;
    var s := Start(db);
    ReachableStart(db);
    ReachableNext(db, s, Arrive(q));
    s := Step(s, Arrive(q));
    ReachableNext(db, s, Arrive(r));
    s := Step(s, Arrive(r));
    assert s == Pair(db, q, r, Arrived);
    ReachableNext(db, s, Lock(0));
    s := Step(s, Lock(0));
    ReachableNext(db, s, Lock(1));
    s := Step(s, Lock(1));
    assert s == Pair(db, q, r, Locked);
    ReachableNext(db, s, Look(0));
    s := Step(s, Look(0));
    ReachableNext(db, s, Look(1));
    s := Step(s, Look(1));
    assert s == Pair(db, q, r, KeyUnused);
  }

  /** The first request is committed, the second has written and not stored its key yet. */
  predicate FirstCommitted(s: State, q: Request, r: Request) {
    && |s.attempts| == 2 && s.attempts[1].request == r && s.attempts[1].phase.Saved?
    && s.attempts[0].request == q && s.attempts[0].phase == Done(Recorded(0))
    && |s.rows| == 1 && s.rows[0].request == q && s.rows[0].owner == 0
  }

  lemma {:induction false} FirstCommits(db: Db, q: Request, r: Request) returns (s: State)
    requires q.wish.student != r.wish.student
    requires Operations.ErrorOf(db, Asked(q)).None? && Operations.ErrorOf(db, Asked(r)).None?
    ensures Reachable(db, s) && FirstCommitted(s, q, r)
  {
    hide Reachable, Operations.Next, Operations.ErrorOf, Operations.Good, Rebase, FingerprintOf, Unaddressed;
    AcceptedIsAddressed(db, q);
    AcceptedIsAddressed(db, r);
    BothLooked(db, q, r);
    s := Pair(db, q, r, KeyUnused);
    ReachableNext(db, s, Write(0));
    s := Step(s, Write(0));
    ReachableNext(db, s, Write(1));
    s := Step(s, Write(1));
    assert s.attempts[1].phase.Saved? && s.attempts[0].phase.Saved? && s.rows == [];
    ReachableNext(db, s, Flush(0));
    s := Step(s, Flush(0));
    assert s.attempts[0].phase.Written? && s.attempts[1].phase.Saved?;
    ReachableNext(db, s, End(0, true));
    s := Step(s, End(0, true));
  }

  /** One key for two requests of one kind: when both are accepted, the second to store it
      can be turned down by the index after it wrote its whole mutation. */
  lemma {:induction false} RaceIsLost(db: Db, q: Request, r: Request) returns (s: State)
    requires Operations.Good(db) && q.wish.student != r.wish.student && SameUse(q, r)
    requires Operations.ErrorOf(db, Asked(q)).None? && Operations.ErrorOf(db, Asked(r)).None?
    ensures Reachable(db, s) && |s.attempts| == 2 && s.attempts[1].request == r && s.attempts[1].phase.Violated?
    ensures Seen(s, 1) != s.db == Operations.Next(db, Asked(q))
  {
    hide Reachable, Operations.Next, Operations.ErrorOf, Operations.Good, Rebase, Operations.Run;
    var before := FirstCommits(db, q, r);
    ReachableNext(db, before, Flush(1));
    s := Step(before, Flush(1));
    LosersWroteAndRestored(db, s, 1);
    TablesAreARun(db, s);
    RunOfOne(db, Asked(q));
    assert Committed(s.rows) == [Asked(q)];
  }

  lemma RunOfOne(db: Db, op: Operations.Operation)
    ensures Operations.Run(db, [op]) == Operations.Next(db, op)
  {
    OneMoreRun(db, [], op);
    assert [] + [op] == [op];
  }

  /** One key for a payment and an allocation: when both are accepted, both are recorded,
      each with its own result, and both mutations are in the tables. */
  lemma {:induction false} KindsDoNotCollide(db: Db, q: Request, r: Request) returns (s: State)
    requires Operations.Good(db) && q.wish.student != r.wish.student
    requires q.key.Some? && q.key == r.key && q.recorder == r.recorder && !SameKind(q, r)
    requires Operations.ErrorOf(db, Asked(q)).None? && Operations.ErrorOf(db, Asked(r)).None?
    ensures Reachable(db, s) && |s.attempts| == 2 && s.attempts[0].request == q && s.attempts[1].request == r
    ensures Told(s, 0).Some? && Told(s, 1).Some? && Told(s, 0) != Told(s, 1)
    ensures s.db == Operations.Next(Operations.Next(db, Asked(q)), Asked(r))
  {
    hide Reachable, Operations.Next, Operations.ErrorOf, Operations.Good, Rebase, Operations.Run, FingerprintOf;
    var before := FirstCommits(db, q, r);
    assert Find(before.rows, r).None?;
    assert !before.attempts[0].phase.Written? && !Awaits(before, 1);
    ReachableIsSafe(db, before);
    ReachableNext(db, before, Flush(1));
    var stored := Step(before, Flush(1));
    ReachableNext(db, stored, End(1, true));
    s := Step(stored, End(1, true));
    assert RowOk(before, before.rows[0]);
    assert s.rows == before.rows + [stored.attempts[1].phase.row];
    TablesAreARun(db, s);
    RunOfOne(db, Asked(q));
    OneMoreRun(db, [Asked(q)], Asked(r));
    assert Committed(s.rows) == [Asked(q)] + [Asked(r)];
  }
}
