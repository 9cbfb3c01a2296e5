/**
 Accounting months under concurrency: a transaction that records a dated entry holds its
 month's advisory lock shared from the check to its end, and one that closes or reopens
 the month holds it exclusively.

 Entries and statuses become visible when their transaction commits.  The entries of a
 withdrawal are not checked by the source and are not among the entries here.  Entries
 keep the ids they got in the tables their transaction saw.
 */
module PeriodLocks {
  import opened Wrappers
  import opened Calendar
  import opened Tables
  import opened Operations
  import History

  datatype Transaction = Transaction(
    active: bool,
    shared: set<nat>,
    exclusive: set<nat>,
    entries: seq<Entry>,
    closing: map<nat, bool>)

  /** The committed entries and the closed months. */
  datatype State = State(transactions: seq<Transaction>, entries: seq<Entry>, closed: set<nat>)

  /** The requests whose entries are dated and checked. */
  predicate Dates(op: Operation) {
    op.Pay? || op.GiveDiscount? || op.Adjust? || op.VoidPayment? || op.RefundPayment?
  }

  /** The months such a request locks and checks: its own, and the payment's it takes back. */
  function CheckedMonths(seen: Db, op: Operation): set<nat>
    requires Dates(op)
  {
    match op
    case Pay(_, _, _, _, at, _) => {PeriodKey(at)}
    case GiveDiscount(_, _, _, at, _) => {PeriodKey(at)}
    case Adjust(_, _, at, _, _) => {PeriodKey(at)}
    case VoidPayment(payment, now, _) => PaymentMonth(seen, payment) + {PeriodKey(now)}
    case RefundPayment(payment, _, _, now, _, _) => PaymentMonth(seen, payment) + {PeriodKey(now)}
  }

  function PaymentMonth(seen: Db, payment: nat): set<nat> {
    if payment < |seen.entries| then {PeriodKey(seen.entries[payment].at)} else {}
  }

  /** The entries a request adds. */
  function Added(seen: Db, op: Operation): seq<Entry> {
    var next := Next(seen, op);
    if |seen.entries| <= |next.entries| then next.entries[|seen.entries|..] else []
  }

  /** Under its locks a request sees of the months it checks what is committed. */
  predicate Sees(s: State, i: nat, seen: Db, op: Operation)
    requires i < |s.transactions|
  {
    && Dates(op) && CheckedMonths(seen, op) <= s.transactions[i].shared
    && forall m :: m in CheckedMonths(seen, op) ==> (IsClosed(seen, m) <==> m in s.closed)
  }

  datatype Move =
    | Begin
    | TakeShared(i: nat, month: nat)
    | TakeExclusive(i: nat, month: nat)
    | Record(i: nat, seen: Db, op: Operation)
    | SetClosed(i: nat, month: nat, close: bool)
    | Commit(i: nat)
    | Abort(i: nat)

  const START := State([], [], {})

  predicate HeldElsewhere(s: State, i: nat, month: nat, exclusiveOnly: bool) {
    exists j :: 0 <= j < |s.transactions| && j != i && s.transactions[j].active
      && (month in s.transactions[j].exclusive || (!exclusiveOnly && month in s.transactions[j].shared))
  }

  function Put(s: State, i: nat, t: Transaction): State
    requires i < |s.transactions|
  {
    s.(transactions := s.transactions[i := t])
  }

  /** The closed months once a transaction's own changes are visible. */
  function ClosedAfter(closed: set<nat>, changes: map<nat, bool>): set<nat> {
    (set m | m in closed && m !in changes) + (set m | m in changes && changes[m])
  }

  predicate Acts(s: State, i: nat) { i < |s.transactions| && s.transactions[i].active }

  /** One step of one transaction; a lock that is not free makes it wait, and a request that
      is turned down ends it. */
  function Step(s: State, m: Move): State {
    match m
    case Begin => s.(transactions := s.transactions + [Transaction(true, {}, {}, [], map[])])
    case TakeShared(i, month) =>
      if !Acts(s, i) || HeldElsewhere(s, i, month, true) then s
      else Put(s, i, s.transactions[i].(shared := s.transactions[i].shared + {month}))
    case TakeExclusive(i, month) =>
      if !Acts(s, i) || HeldElsewhere(s, i, month, false) then s
      else Put(s, i, s.transactions[i].(exclusive := s.transactions[i].exclusive + {month}))
    case Record(i, seen, op) =>
      if !Acts(s, i) || !Sees(s, i, seen, op) then s
      else if ErrorOf(seen, op).Some? then Put(s, i, s.transactions[i].(active := false))
      else Put(s, i, s.transactions[i].(entries := s.transactions[i].entries + Added(seen, op)))
    case SetClosed(i, month, close) =>
      if !Acts(s, i) || month !in s.transactions[i].exclusive then s
      else Put(s, i, s.transactions[i].(closing := s.transactions[i].closing[month := close]))
    case Commit(i) =>
      if !Acts(s, i) then s
      else
        var t := s.transactions[i];
        Put(s, i, t.(active := false)).(entries := s.entries + t.entries, closed := ClosedAfter(s.closed, t.closing))
    case Abort(i) =>
      if !Acts(s, i) then s else Put(s, i, s.transactions[i].(active := false))
  }

  function Run(moves: seq<Move>): State {
    if moves == [] then START else Step(Run(moves[..|moves| - 1]), moves[|moves| - 1])
  }

  // ---------------------------------------------------------------------------
  // The invariant
  // ---------------------------------------------------------------------------

  /** The entries of a running transaction are in months that are open and that it holds
      shared, and it changes only months it holds exclusively. */
  ghost predicate Disciplined(s: State, i: nat)
    requires i < |s.transactions|
  {
    var t := s.transactions[i];
    t.active ==>
      && (forall k ::
        0 <= k < |t.entries| ==> PeriodKey(t.entries[k].at) in t.shared && PeriodKey(t.entries[k].at) !in s.closed)
      && t.closing.Keys <= t.exclusive
  }

  /** Nobody shares a month that another transaction holds exclusively. */
  predicate Compatible(s: State, i: nat, j: nat)
    requires i < |s.transactions| && j < |s.transactions|
  {
    var a, b := s.transactions[i], s.transactions[j];
    a.active && b.active ==> a.exclusive !! b.exclusive && a.exclusive !! b.shared && a.shared !! b.exclusive
  }

  ghost predicate Safe(s: State) {
    && (forall i :: 0 <= i < |s.transactions| ==> Disciplined(s, i))
    && (forall i, j :: 0 <= i < j < |s.transactions| ==> Compatible(s, i, j))
  }

  /** A change of one transaction that takes no lock and closes nothing. */
  lemma PrivateStep(s: State, i: nat, t: Transaction)
    requires Safe(s) && i < |s.transactions| && s.transactions[i].active
    requires t.shared == s.transactions[i].shared && t.exclusive == s.transactions[i].exclusive
    requires Disciplined(Put(s, i, t), i)
    ensures Safe(Put(s, i, t))
  {
    var next := Put(s, i, t);
    forall j | 0 <= j < |next.transactions| ensures Disciplined(next, j) {
      if j != i { assert Disciplined(s, j); }
    }
    forall j, k | 0 <= j < k < |next.transactions| ensures Compatible(next, j, k) { assert Compatible(s, j, k); }
  }

  lemma LockStep(s: State, i: nat, month: nat, exclusive: bool)
    requires Safe(s) && i < |s.transactions| && s.transactions[i].active
    requires !HeldElsewhere(s, i, month, !exclusive)
    ensures var t := s.transactions[i];
      Safe(Put(s, i, if exclusive then t.(exclusive := t.exclusive + {month}) else t.(shared := t.shared + {month})))
  {
    var t := s.transactions[i];
    var next := Put(s, i, if exclusive then t.(exclusive := t.exclusive + {month})
      else t.(shared := t.shared + {month}));
    forall j | 0 <= j < |next.transactions| ensures Disciplined(next, j) { assert Disciplined(s, j); }
    forall j, k | 0 <= j < k < |next.transactions| ensures Compatible(next, j, k) { assert Compatible(s, j, k); }
  }

  /** Committing a closed or reopened month: nobody else is writing to it. */
  lemma CommitStep(s: State, i: nat)
    requires Safe(s) && i < |s.transactions| && s.transactions[i].active
    ensures Safe(Step(s, Commit(i)))
    ensures forall e :: e in s.transactions[i].entries ==> PeriodKey(e.at) !in s.closed
  {
    hide PeriodKey;
    var t, next := s.transactions[i], Step(s, Commit(i));
    assert Disciplined(s, i);
    forall j | 0 <= j < |next.transactions| ensures Disciplined(next, j) {
      assert Disciplined(s, j);
      if j < i { assert Compatible(s, j, i); }
      if i < j { assert Compatible(s, i, j); }
    }
    forall j, k | 0 <= j < k < |next.transactions| ensures Compatible(next, j, k) { assert Compatible(s, j, k); }
  }

  lemma BeginStep(s: State)
    requires Safe(s)
    ensures Safe(Step(s, Begin))
  {
    var next := Step(s, Begin);
    forall j | 0 <= j < |next.transactions| ensures Disciplined(next, j) {
      if j < |s.transactions| { assert Disciplined(s, j); }
    }
    forall j, k | 0 <= j < k < |next.transactions| ensures Compatible(next, j, k) {
      if k < |s.transactions| { assert Compatible(s, j, k); }
    }
  }

  /** The entry of an accepted request is in a month that the request checked. */
  lemma AddedIsChecked(seen: Db, op: Operation)
    requires Dates(op) && ErrorOf(seen, op).None?
    ensures forall k :: 0 <= k < |Added(seen, op)| ==>
      PeriodKey(Added(seen, op)[k].at) in CheckedMonths(seen, op) && !IsClosed(seen, PeriodKey(Added(seen, op)[k].at))
  {
    hide PeriodKey;
    var next := Next(seen, op);
    History.MoneyStepGrows(seen, op);
    forall k | 0 <= k < |Added(seen, op)|
      ensures PeriodKey(Added(seen, op)[k].at) in CheckedMonths(seen, op)
      ensures !IsClosed(seen, PeriodKey(Added(seen, op)[k].at))
    {
      assert Added(seen, op)[k] == next.entries[|seen.entries| + k];
    }
  }

  lemma RecordStep(s: State, i: nat, seen: Db, op: Operation)
    requires Safe(s) && Acts(s, i) && Sees(s, i, seen, op)
    ensures Safe(Step(s, Record(i, seen, op)))
  {
    hide PeriodKey, Added, CheckedMonths, ErrorOf;
    assert Disciplined(s, i);
    var t := s.transactions[i];
    if ErrorOf(seen, op).Some? {
      PrivateStep(s, i, t.(active := false));
    } else {
      AddedIsChecked(seen, op);
      PrivateStep(s, i, t.(entries := t.entries + Added(seen, op)));
    }
  }

  lemma StepIsSafe(s: State, m: Move)
    requires Safe(s)
    ensures Safe(Step(s, m))
  {
    if Step(s, m) != s {
      match m {
        case Begin => BeginStep(s);
        case Commit(i) => CommitStep(s, i);
        case Abort(i) => PrivateStep(s, i, s.transactions[i].(active := false));
        case TakeShared(i, month) => LockStep(s, i, month, false);
        case TakeExclusive(i, month) => LockStep(s, i, month, true);
        case Record(i, seen, op) => RecordStep(s, i, seen, op);
        case SetClosed(i, month, close) =>
          assert Disciplined(s, i);
          PrivateStep(s, i, s.transactions[i].(closing := s.transactions[i].closing[month := close]));
      }
    }
  }

  lemma {:induction false} RunIsSafe(moves: seq<Move>)
    ensures Safe(Run(moves))
  {
    if moves != [] {
      RunIsSafe(moves[..|moves| - 1]);
      StepIsSafe(Run(moves[..|moves| - 1]), moves[|moves| - 1]);
    }
  }

  // ---------------------------------------------------------------------------
  // Closed months
  // ---------------------------------------------------------------------------

  /** The positions of the entries dated in a month. */
  function DatedIn(entries: seq<Entry>, month: nat): seq<nat> {
    if entries == [] then []
    else
      var n := |entries| - 1;
      DatedIn(entries[..n], month) + (if PeriodKey(entries[n].at) == month then [n] else [])
  }

  lemma {:induction false} OthersAddNothing(entries: seq<Entry>, more: seq<Entry>, month: nat)
    requires forall e :: e in more ==> PeriodKey(e.at) != month
    ensures DatedIn(entries + more, month) == DatedIn(entries, month)
  {
    hide PeriodKey;
    if more == [] {
      assert entries + more == entries;
    } else {
      var n := |more| - 1;
      OthersAddNothing(entries, more[..n], month);
      assert (entries + more)[..|entries| + n] == entries + more[..n];
    }
  }

  /** No step adds an entry to a month that is closed before it. */
  lemma ClosedMonthTakesNothing(s: State, m: Move, month: nat)
    requires Safe(s) && month in s.closed
    ensures DatedIn(Step(s, m).entries, month) == DatedIn(s.entries, month)
  {
    if m.Commit? && Step(s, m) != s {
      CommitStep(s, m.i);
      OthersAddNothing(s.entries, s.transactions[m.i].entries, month);
    }
  }

  /** Under any interleaving the entries dated in a month stay the same while it stays
      closed. */
  lemma {:induction false} ClosedMonthsDoNotGrow(moves: seq<Move>, i: nat, j: nat, month: nat)
    requires i <= j <= |moves|
    requires forall k :: i <= k < j ==> month in Run(moves[..k]).closed
    ensures DatedIn(Run(moves[..j]).entries, month) == DatedIn(Run(moves[..i]).entries, month)
  {
    hide Step, DatedIn, Safe;
    if i < j {
      ClosedMonthsDoNotGrow(moves, i, j - 1, month);
      RunIsSafe(moves[..j - 1]);
      ClosedMonthTakesNothing(Run(moves[..j - 1]), moves[j - 1], month);
      assert moves[..j][..j - 1] == moves[..j - 1];
    }
  }

  /** Every entry that a transaction has recorded and not committed is in a month that is
      still open, so closing waits for it. */
  lemma UncommittedMonthsAreOpen(moves: seq<Move>, i: nat, k: nat)
    requires i < |Run(moves).transactions| && Run(moves).transactions[i].active
    requires k < |Run(moves).transactions[i].entries|
    ensures var s := Run(moves); var month := PeriodKey(s.transactions[i].entries[k].at);
      && month !in s.closed
      && forall j ::
        0 <= j < |s.transactions| && j != i && s.transactions[j].active ==> month !in s.transactions[j].closing
  {
    hide Run;
    RunIsSafe(moves);
    var s := Run(moves);
    assert Disciplined(s, i);
    forall j | 0 <= j < |s.transactions| && j != i && s.transactions[j].active
      ensures PeriodKey(s.transactions[i].entries[k].at) !in s.transactions[j].closing
    {
      assert Disciplined(s, j);
      if j < i { assert Compatible(s, j, i); } else { assert Compatible(s, i, j); }
    }
  }

  // ---------------------------------------------------------------------------
  // Voids and refunds
  // ---------------------------------------------------------------------------

  predicate Running(s: State, i: nat, month: nat) { Acts(s, i) && month in s.transactions[i].shared }

  /** A month keeps its status while a running transaction shares it. */
  lemma SharedMonthKeepsStatus(s: State, m: Move, i: nat, month: nat)
    requires Safe(s) && Running(s, i, month) && Acts(Step(s, m), i)
    ensures Running(Step(s, m), i, month)
    ensures month in Step(s, m).closed <==> month in s.closed
  {
    hide PeriodKey, Sees, Added, ErrorOf, HeldElsewhere;
    if m.Commit? && Acts(s, m.i) && m.i != i {
      assert Disciplined(s, m.i);
      if i < m.i { assert Compatible(s, i, m.i); } else { assert Compatible(s, m.i, i); }
    }
  }

  lemma {:induction false} SharedMonthsKeepStatus(moves: seq<Move>, k: nat, j: nat, i: nat, month: nat)
    requires k <= j <= |moves| && Running(Run(moves[..k]), i, month)
    requires forall n :: k <= n <= j ==> Acts(Run(moves[..n]), i)
    ensures Running(Run(moves[..j]), i, month)
    ensures month in Run(moves[..j]).closed <==> month in Run(moves[..k]).closed
  {
    hide Step, Safe, Running, Acts;
    if k < j {
      SharedMonthsKeepStatus(moves, k, j - 1, i, month);
      RunIsSafe(moves[..j - 1]);
      assert moves[..j][..j - 1] == moves[..j - 1];
      assert Acts(Run(moves[..j]), i);
      SharedMonthKeepsStatus(Run(moves[..j - 1]), moves[j - 1], i, month);
    }
  }

  /** From the moment a void or refund is recorded until its transaction ends, its own month
      and the month of the payment it takes back stay open. */
  lemma {:induction false} BothMonthsStayOpen(moves: seq<Move>, k: nat, j: nat, i: nat, seen: Db, op: Operation)
    requires (op.VoidPayment? || op.RefundPayment?) && ErrorOf(seen, op).None? && op.payment < |seen.entries|
    requires k <= j <= |moves| && Acts(Run(moves[..k]), i) && Sees(Run(moves[..k]), i, seen, op)
    requires forall n :: k <= n <= j ==> Acts(Run(moves[..n]), i)
    ensures PeriodKey(op.now) !in Run(moves[..j]).closed
    ensures PeriodKey(seen.entries[op.payment].at) !in Run(moves[..j]).closed
  {
    hide PeriodKey, Run, ErrorOf;
    ReversalChecksBoth(seen, op);
    SharedMonthsKeepStatus(moves, k, j, i, PeriodKey(op.now));
    SharedMonthsKeepStatus(moves, k, j, i, PeriodKey(seen.entries[op.payment].at));
  }

  lemma ReversalChecksBoth(seen: Db, op: Operation)
    requires (op.VoidPayment? || op.RefundPayment?) && ErrorOf(seen, op).None? && op.payment < |seen.entries|
    ensures !IsClosed(seen, PeriodKey(op.now)) && !IsClosed(seen, PeriodKey(seen.entries[op.payment].at))
    ensures {PeriodKey(op.now), PeriodKey(seen.entries[op.payment].at)} <= CheckedMonths(seen, op)
  {
    hide PeriodKey;
  }

  /** A transaction whose request is turned down is over: it never acts again, and nothing
      it recorded is ever committed. */
  lemma {:induction false} RefusedNeverCommits(s: State, i: nat, seen: Db, op: Operation, later: seq<Move>)
    requires Acts(s, i) && Sees(s, i, seen, op) && ErrorOf(seen, op).Some?
    ensures var refused := Step(s, Record(i, seen, op));
      && !Acts(Continue(refused, later), i)
      && Step(Continue(refused, later), Commit(i)) == Continue(refused, later)
  {
    hide ErrorOf, Sees, Added;
    var refused := Step(s, Record(i, seen, op));
    assert i < |refused.transactions| && !refused.transactions[i].active;
    OverIsOver(refused, i, later);
  }

  function Continue(s: State, moves: seq<Move>): State {
    if moves == [] then s else Step(Continue(s, moves[..|moves| - 1]), moves[|moves| - 1])
  }

  lemma {:induction false} OverIsOver(s: State, i: nat, moves: seq<Move>)
    requires i < |s.transactions| && !s.transactions[i].active
    ensures var next := Continue(s, moves); i < |next.transactions| && !next.transactions[i].active
  {
    hide ErrorOf, Sees, Added, HeldElsewhere;
    if moves != [] { OverIsOver(s, i, moves[..|moves| - 1]); }
  }

  // ---------------------------------------------------------------------------
  // A run in which a month is written to, closed, and refused
  // ---------------------------------------------------------------------------

  /** The second transaction asks for the month while the first one is still writing. */
  function WriteThenClose(op: Operation, month: nat): seq<Move> {
    [Begin, TakeShared(0, month), Record(0, EMPTY, op), Begin, TakeExclusive(1, month), Commit(0),
      TakeExclusive(1, month), SetClosed(1, month, true), Commit(1)]
  }

  lemma {:induction false} Prefix(moves: seq<Move>, n: nat)
    requires n < |moves|
    ensures Run(moves[..n + 1]) == Step(Run(moves[..n]), moves[n])
  {
    hide Step;
    assert moves[..n + 1][..n] == moves[..n];
  }

  /** What the first transaction holds once it has recorded its entry. */
  function Writer(month: nat, entry: Entry): Transaction { Transaction(true, {month}, {}, [entry], map[]) }

  lemma {:induction false} WriterArrives(op: Operation, month: nat, entry: Entry)
    requires op.Adjust? && month == PeriodKey(op.at) && op.superAdmin
    requires entry == Entry(0, op.student, Adjustment, op.amount, op.at, op.recorder, None, false)
    ensures Run(WriteThenClose(op, month)[..3]) == State([Writer(month, entry)], [], {})
  {
    hide PeriodKey, Run;
    var moves, idle, none: set<nat> := WriteThenClose(op, month), Transaction(true, {}, {}, [], map[]), {};
    assert Run(moves[..0]) == START by { NothingRun(moves); }
    Prefix(moves, 0);
    Prefix(moves, 1);
    Prefix(moves, 2);
    assert Run(moves[..1]) == State([idle], [], {});
    assert none + {month} == {month};
    assert Run(moves[..2]) == State([idle.(shared := {month})], [], {});
    EmptyAccepts(op, month, entry);
    assert Sees(Run(moves[..2]), 0, EMPTY, op);
  }

  lemma EmptyAccepts(op: Operation, month: nat, entry: Entry)
    requires op.Adjust? && month == PeriodKey(op.at) && op.superAdmin
    requires entry == Entry(0, op.student, Adjustment, op.amount, op.at, op.recorder, None, false)
    ensures ErrorOf(EMPTY, op).None? && Added(EMPTY, op) == [entry] && !IsClosed(EMPTY, month)
    ensures CheckedMonths(EMPTY, op) == {month}
  {
    hide PeriodKey;
  }

  lemma NothingRun(moves: seq<Move>)
    ensures Run(moves[..0]) == START
  {
  }

  /** Closing a month waits for a transaction that writes to it, then takes effect with the
      entry in place; from then on the month's entries are turned down. */
  lemma {:induction false} ClosingWaitsForTheWriter(student: int, amount: Money, at: nat, recorder: int, later: Db)
    requires IsClosed(later, PeriodKey(at))
    ensures var month, op := PeriodKey(at), Adjust(student, amount, at, recorder, true);
      var moves := WriteThenClose(op, month);
      && Run(moves[..5]) == Run(moves[..4])
      && Run(moves).closed == {month}
      && Run(moves).entries == [Entry(0, student, Adjustment, amount, at, recorder, None, false)]
      && ErrorOf(later, op) == Some(ClosedPeriod)
  {
    hide PeriodKey, Run, Step, EMPTY;
    var month, op := PeriodKey(at), Adjust(student, amount, at, recorder, true);
    var moves := WriteThenClose(op, month);
    var entry := Entry(0, student, Adjustment, amount, at, recorder, None, false);
    WriterArrives(op, month, entry);
    Prefix(moves, 3);
    Prefix(moves, 4);
    Prefix(moves, 5);
    Prefix(moves, 6);
    Prefix(moves, 7);
    Prefix(moves, 8);
    assert moves[..9] == moves;
    CloserWaits(month, entry);
  }

  lemma CloserWaits(month: nat, entry: Entry)
    ensures var s := Step(State([Writer(month, entry)], [], {}), Begin);
      var ended := Step(s, Commit(0));
      var closed := Step(Step(Step(ended, TakeExclusive(1, month)), SetClosed(1, month, true)), Commit(1));
      Step(s, TakeExclusive(1, month)) == s && closed.closed == {month} && closed.entries == [entry]
  {
    var s := Step(State([Writer(month, entry)], [], {}), Begin);
    assert s.transactions[0] == Writer(month, entry);
    assert HeldElsewhere(s, 1, month, false);
    var ended := Step(s, Commit(0));
    assert !ended.transactions[0].active && ended.closed == {};
    var locked := Step(ended, TakeExclusive(1, month));
    assert month in locked.transactions[1].exclusive;
    var closing := Step(locked, SetClosed(1, month, true));
    assert closing.transactions[1].closing == map[month := true];
  }
}
