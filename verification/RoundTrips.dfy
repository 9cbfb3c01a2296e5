/**
 Converting an enrollment to a grant and resuming its billing on the same day: what each
 month owes afterwards, and when the two requests undo each other.
 */
module RoundTrips {
  import opened Wrappers
  import opened Sums
  import opened Calendar
  import opened Tables
  import opened Withdrawals
  import opened Billing
  import opened Grants
  import opened Operations
  import Balances
  import Posting
  import Schedule

  // ---------------------------------------------------------------------------
  // What a month owes
  // ---------------------------------------------------------------------------

  function MonthDebtOf(db: Db, enrollment: nat, month: nat): Charge -> int {
    (c: Charge) =>
      if c.enrollment == enrollment && c.kind == Tuition && c.status != Cancelled && c.sequenceNo == month
      then c.amount - ActiveOn(db, c.id) else 0
  }

  /** What is owed on the live tuition of a month of an enrollment. */
  function MonthDebt(db: Db, enrollment: nat, month: nat): int {
    Sum(db.charges, MonthDebtOf(db, enrollment, month))
  }

  function OtherDebtOf(db: Db, enrollment: nat): Charge -> int {
    (c: Charge) =>
      if c.enrollment == enrollment && c.kind != Tuition && c.status != Cancelled then c.amount - ActiveOn(db, c.id)
        else 0
  }

  /** What is owed on the fees of an enrollment. */
  function OtherDebt(db: Db, enrollment: nat): int {
    Sum(db.charges, OtherDebtOf(db, enrollment))
  }

  function Months(n: nat): seq<nat> { seq(n, i requires 0 <= i => i + 1) }

  function MonthDebtAt(db: Db, enrollment: nat): nat -> int {
    (month: nat) => MonthDebt(db, enrollment, month)
  }

  function MonthPart(db: Db, enrollment: nat): (Charge, nat) -> int {
    (c: Charge, month: nat) => MonthDebtOf(db, enrollment, month)(c)
  }

  /** A month owes what its one live charge still needs. */
  lemma BilledMonthOwes(db: Db, enrollment: nat, c: nat)
    requires RowsOk(db) && Scheduled(db) && LiveTuition(db, enrollment, c)
    ensures MonthDebt(db, enrollment, db.charges[c].sequenceNo) == Remaining(db, c)
  {
    hide ActiveOn, BillsMonth;
    var month := db.charges[c].sequenceNo;
    forall i | 0 <= i < |db.charges| && i != c ensures MonthDebtOf(db, enrollment, month)(db.charges[i]) == 0 {
      assert LiveTuition(db, enrollment, i) ==> db.charges[i].sequenceNo != month;
    }
    SumSingle(db.charges, c, MonthDebtOf(db, enrollment, month));
    assert ChargeRowOk(db, c);
  }

  lemma UnbilledMonthOwesNothing(db: Db, enrollment: nat, month: nat)
    requires !Billed(db, enrollment, month)
    ensures MonthDebt(db, enrollment, month) == 0
  {
    hide ActiveOn;
    forall i | 0 <= i < |db.charges| ensures MonthDebtOf(db, enrollment, month)(db.charges[i]) == 0 {
      assert LiveTuition(db, enrollment, i) ==> db.charges[i].sequenceNo != month;
    }
    SumZero(db.charges, MonthDebtOf(db, enrollment, month));
  }

  lemma ChargeByMonth(db: Db, enrollment: nat, i: nat)
    requires RowsOk(db) && Scheduled(db) && enrollment < |db.enrollments| && i < |db.charges|
    ensures DebtOf(db, enrollment)(db.charges[i])
         == OtherDebtOf(db, enrollment)(db.charges[i])
            + RowTotals(MonthPart(db, enrollment), Months(|Starts(db, enrollment)|))(db.charges[i])
  {
    hide ActiveOn, Starts;
    var c, months := db.charges[i], Months(|Starts(db, enrollment)|);
    var row := Row<Charge, nat>(MonthPart(db, enrollment), c);
    forall j | 0 <= j < |months| ensures row(months[j]) == MonthDebtOf(db, enrollment, j + 1)(c) {}
    if LiveTuition(db, enrollment, i) {
      assert BillsMonth(db, enrollment, i);
      SumSingle<nat>(months, c.sequenceNo - 1, row);
    } else {
      SumZero<nat>(months, row);
    }
  }

  /** An enrollment owes what its months owe, and its fees. */
  lemma DebtByMonth(db: Db, enrollment: nat)
    requires RowsOk(db) && Scheduled(db) && enrollment < |db.enrollments|
    ensures EnrollmentDebt(db, enrollment)
         == OtherDebt(db, enrollment) + Sum(Months(|Starts(db, enrollment)|), MonthDebtAt(db, enrollment))
  {
    hide ActiveOn, Starts, RowsOk, Scheduled;
    var months, part := Months(|Starts(db, enrollment)|), MonthPart(db, enrollment);
    forall j | 0 <= j < |months|
      ensures Sum(db.charges, Column(part, months[j])) == MonthDebtAt(db, enrollment)(months[j])
    {
      SumAgree(db.charges, Column(part, months[j]), MonthDebtOf(db, enrollment, months[j]));
    }
    SumGrouped(db.charges, months, part, MonthDebtAt(db, enrollment));
    forall i | 0 <= i < |db.charges|
      ensures DebtOf(db, enrollment)(db.charges[i])
        == OtherDebtOf(db, enrollment)(db.charges[i]) + RowTotals(part, months)(db.charges[i])
    {
      ChargeByMonth(db, enrollment, i);
    }
    SumPlus(db.charges, OtherDebtOf(db, enrollment), RowTotals(part, months), DebtOf(db, enrollment));
  }

  // ---------------------------------------------------------------------------
  // The two requests
  // ---------------------------------------------------------------------------

  function Converting(enrollment: nat, paymentDay: Option<nat>, today: int, now: nat, actor: int): Operation {
    ChangeMode(enrollment, Grant, paymentDay, today, now, actor)
  }

  function Resuming(enrollment: nat, paymentDay: Option<nat>, today: int, now: nat, actor: int): Operation {
    ChangeMode(enrollment, Paid, paymentDay, today, now, actor)
  }

  /** Month `month` of the plan starts on `day` or later. */
  predicate MonthFromDay(db: Db, enrollment: nat, month: nat, day: int) {
    InTime(db, enrollment) && 1 <= month <= |Starts(db, enrollment)| &&
      day <= DayNumber(Starts(db, enrollment)[month - 1])
  }

  /** What the two requests do to what a month owes.  A month that starts that very day is
      dropped or written off; a later one is billed when it was not, loses its remainder
      when it was partly paid, and is billed anew when nothing was paid. */
  function MonthChange(db: Db, enrollment: nat, today: int, month: nat): int {
    if !MonthFromDay(db, enrollment, month, today) then 0
    else if !MonthFromDay(db, enrollment, month, today + 1) then -MonthDebt(db, enrollment, month)
    else if !Billed(db, enrollment, month) then db.enrollments[enrollment].price
    else if MonthDebt(db, enrollment, month) < db.enrollments[enrollment].price then -MonthDebt(db, enrollment, month)
    else 0
  }

  function MonthChangeAt(db: Db, enrollment: nat, today: int): nat -> int {
    (month: nat) => MonthChange(db, enrollment, today, month)
  }

  // ---------------------------------------------------------------------------
  // After the conversion
  // ---------------------------------------------------------------------------

  /** `next` is `db` after an accepted conversion of `enrollment`. */
  ghost predicate Converted(db: Db, next: Db, enrollment: nat, today: int) {
    && Good(db) && Good(next) && enrollment < |db.enrollments|
    && SameTerms(db, next) && |next.charges| == |db.charges|
    && next.enrollments[enrollment].status == Active && next.enrollments[enrollment].mode == Grant
    && forall c :: 0 <= c < |db.charges| ==>
         if StartsFrom(db, enrollment, today, c) then Granted(db, next, c)
         else next.charges[c] == db.charges[c] && ActiveOn(next, c) == ActiveOn(db, c)
  }

  lemma {:induction false} ConvertedByRequest(db: Db, enrollment: nat, paymentDay: Option<nat>, today: int, now: nat,
                                              actor: int, other: int)
    requires Good(db) && ErrorOf(db, Converting(enrollment, paymentDay, today, now, actor)).None?
    ensures var next := Next(db, Converting(enrollment, paymentDay, today, now, actor));
      Converted(db, next, enrollment, today) && Wallet(next, other) == Wallet(db, other)
  {
    hide Starts, CourseOk, StartsFrom, FutureCharges, AfterConvert, Wallet, Outstanding, ConvertError, Integrity,
      Scheduled, ActiveOn;
    var next := Next(db, Converting(enrollment, paymentDay, today, now, actor));
    ModeChangeEffect(db, enrollment, Grant, paymentDay, today, now, actor, other);
    ConvertEffect(db, enrollment, today, now, actor, other);
    ConvertKeepsEnrollments(db, enrollment, today, now, actor);
    var converted := AfterConvert(db, enrollment, today, now, actor);
    forall c | 0 <= c < |db.charges|
      ensures if StartsFrom(db, enrollment, today, c) then Granted(db, next, c)
              else next.charges[c] == db.charges[c] && ActiveOn(next, c) == ActiveOn(db, c)
    {
      Posting.SameActive(converted, next, c);
    }
  }

  /** What a month owes after the conversion: nothing when it starts from today on. */
  lemma MonthAfterConversion(db: Db, next: Db, enrollment: nat, today: int, c: nat)
    requires Converted(db, next, enrollment, today) && LiveTuition(db, enrollment, c)
    ensures var month := db.charges[c].sequenceNo;
      && MonthFromDay(db, enrollment, month, today) == StartsFrom(db, enrollment, today, c)
      && (Billed(next, enrollment, month) <==> !StartsFrom(db, enrollment, today, c) || 0 < ActiveOn(db, c))
      && MonthDebt(next, enrollment, month)
        == if StartsFrom(db, enrollment, today, c) then 0 else MonthDebt(db, enrollment, month)
  {
    hide ActiveOn, Starts, CourseOk, RowsOk, Balanced;
    var month := db.charges[c].sequenceNo;
    assert BillsMonth(db, enrollment, c);
    GoodIsSound(db);
    GoodIsSound(next);
    BilledMonthOwes(db, enrollment, c);
    if LiveTuition(next, enrollment, c) {
      BilledMonthOwes(next, enrollment, c);
    } else {
      forall d | 0 <= d < |next.charges| && LiveTuition(next, enrollment, d)
        ensures next.charges[d].sequenceNo != month
      {
        assert LiveTuition(db, enrollment, d);
      }
      UnbilledMonthOwesNothing(next, enrollment, month);
    }
  }

  lemma UnbilledAfterConversion(db: Db, next: Db, enrollment: nat, today: int, month: nat)
    requires Converted(db, next, enrollment, today) && !Billed(db, enrollment, month)
    ensures !Billed(next, enrollment, month)
  {
    hide ActiveOn, Starts, CourseOk, RowsOk, Balanced, Scheduled;
    forall d | 0 <= d < |next.charges| && LiveTuition(next, enrollment, d) ensures next.charges[d].sequenceNo != month {
      assert LiveTuition(db, enrollment, d);
    }
  }

  // ---------------------------------------------------------------------------
  // After the resumption
  // ---------------------------------------------------------------------------

  /** `next` is `db` after billing was resumed. */
  ghost predicate Resumed(db: Db, next: Db, enrollment: nat, today: int) {
    && Good(db) && Good(next) && enrollment < |db.enrollments| && SameTerms(db, next)
    && |db.charges| <= |next.charges| && next.charges[..|db.charges|] == db.charges
    && (forall c: nat :: ActiveOn(next, c) == ActiveOn(db, c))
    && (forall c :: |db.charges| <= c < |next.charges| ==> next.charges[c].kind == Tuition)
    && (forall month: nat :: Billed(next, enrollment, month) <==>
          MonthFromDay(db, enrollment, month, today + 1) || Billed(db, enrollment, month))
  }

  lemma {:induction false} ResumedByRequest(db: Db, enrollment: nat, paymentDay: Option<nat>, today: int, now: nat,
                                            actor: int, other: int)
    requires Good(db) && ErrorOf(db, Resuming(enrollment, paymentDay, today, now, actor)).None?
    ensures var next := Next(db, Resuming(enrollment, paymentDay, today, now, actor));
      Resumed(db, next, enrollment, today) && Wallet(next, other) == Wallet(db, other)
  {
    hide Starts, CourseOk, PlanOf, Missing, Wallet, Outstanding, ActiveOn, Billed, Integrity, Scheduled, RowsOk;
    var next := Next(db, Resuming(enrollment, paymentDay, today, now, actor));
    var paid := WithMode(db, enrollment, Paid);
    ModeChangeEffect(db, enrollment, Paid, paymentDay, today, now, actor, other);
    StatusIsApart(db, enrollment, db.enrollments[enrollment].status, Paid, other);
    GoodIsSound(db);
    ScheduleKept(db, paid);
    StartsKept(db, paid, enrollment);
    Balances.IntegrityHasRows(paid);
    forall c: nat ensures ActiveOn(next, c) == ActiveOn(db, c) { Posting.SameActive(db, next, c); }
    forall month: nat
      ensures Billed(next, enrollment, month) <==>
        MonthFromDay(db, enrollment, month, today + 1) || Billed(db, enrollment, month)
    {
      SameBilled(db, paid, enrollment, month);
      ResumedMonth(paid, enrollment, paymentDay, today, month);
    }
  }

  lemma SameBilled(db: Db, next: Db, enrollment: nat, month: nat)
    requires next.charges == db.charges
    ensures Billed(next, enrollment, month) <==> Billed(db, enrollment, month)
  {
    forall c: nat ensures LiveTuition(next, enrollment, c) <==> LiveTuition(db, enrollment, c) {}
  }

  lemma {:induction false} ResumedMonth(db: Db, enrollment: nat, paymentDay: Option<nat>, today: int, month: nat)
    requires RowsOk(db) && Scheduled(db) && EnrollmentReady(db, enrollment)
    ensures Billed(AfterResume(db, enrollment, paymentDay, today), enrollment, month)
      <==> MonthFromDay(db, enrollment, month, today + 1) || Billed(db, enrollment, month)
  {
    hide Starts, CourseOk, PlanOf, Billed, Scheduled, RowsOk;
    var plan := PlanOf(db, enrollment, paymentDay);
    PlanLength(db, enrollment, paymentDay);
    if 1 <= month <= |plan| {
      ResumeCovers(db, enrollment, paymentDay, today, month - 1);
      PlanRow(db, enrollment, paymentDay, month - 1);
    } else {
      var missing := Missing(db, enrollment, today, plan);
      BilledAfterAdding(db, enrollment, missing, month);
      if k :| 0 <= k < |missing| && missing[k].sequenceNo == month {
        MissingRow(db, enrollment, today, plan, k);
        var i :| 0 <= i < |plan| && plan[i] == missing[k];
        PlanRow(db, enrollment, paymentDay, i);
      }
    }
  }

  /** The plan has a row for each course month, when there is a plan. */
  lemma PlanLength(db: Db, enrollment: nat, paymentDay: Option<nat>)
    requires EnrollmentReady(db, enrollment)
    ensures |PlanOf(db, enrollment, paymentDay)| == if InTime(db, enrollment) then |Starts(db, enrollment)| else 0
  {
    hide CourseOk, Schedule.BilledStarts, Schedule.Installment;
  }

  /** A month billed before the resumption keeps what it owes, a new one owes the price. */
  lemma MonthAfterResumption(db: Db, next: Db, enrollment: nat, today: int, month: nat)
    requires Resumed(db, next, enrollment, today)
    ensures MonthDebt(next, enrollment, month) ==
      if Billed(db, enrollment, month) then MonthDebt(db, enrollment, month)
      else if MonthFromDay(db, enrollment, month, today + 1) then db.enrollments[enrollment].price
      else 0
  {
    hide ActiveOn, Starts, CourseOk, RowsOk, Balanced, Scheduled;
    GoodIsSound(db);
    GoodIsSound(next);
    forall c | 0 <= c < |db.charges|
      ensures next.charges[c] == db.charges[c] && LiveTuition(next, enrollment, c) == LiveTuition(db, enrollment, c)
    {
      assert next.charges[..|db.charges|][c] == next.charges[c];
    }
    if Billed(db, enrollment, month) {
      var c :| 0 <= c < |db.charges| && LiveTuition(db, enrollment, c) && db.charges[c].sequenceNo == month;
      BilledMonthOwes(db, enrollment, c);
      BilledMonthOwes(next, enrollment, c);
    } else if Billed(next, enrollment, month) {
      var c :| 0 <= c < |next.charges| && LiveTuition(next, enrollment, c) && next.charges[c].sequenceNo == month;
      BilledMonthOwes(next, enrollment, c);
      NothingOn(db, c);
      MonthAtPrice(next, enrollment, c);
    } else {
      UnbilledMonthOwesNothing(next, enrollment, month);
    }
  }

  lemma MonthAtPrice(db: Db, enrollment: nat, c: nat)
    requires Scheduled(db) && enrollment < |db.enrollments| && LiveTuition(db, enrollment, c)
    ensures db.charges[c].amount == db.enrollments[enrollment].price
  {
    assert BillsMonth(db, enrollment, c);
  }

  // ---------------------------------------------------------------------------
  // Both on one day
  // ---------------------------------------------------------------------------

  /** The tables after both requests. */
  function AfterBoth(db: Db, enrollment: nat, paymentDay: Option<nat>, today: int, now: nat, actor: int): Db {
    Next(Next(db, Converting(enrollment, paymentDay, today, now, actor)),
      Resuming(enrollment, paymentDay, today, now, actor))
  }

  lemma BothSteps(db: Db, enrollment: nat, paymentDay: Option<nat>, today: int, now: nat, actor: int, other: int)
    requires Good(db) && ErrorOf(db, Converting(enrollment, paymentDay, today, now, actor)).None?
    ensures var granted := Next(db, Converting(enrollment, paymentDay, today, now, actor));
      var next := AfterBoth(db, enrollment, paymentDay, today, now, actor);
      && ErrorOf(granted, Resuming(enrollment, paymentDay, today, now, actor)).None?
      && Converted(db, granted, enrollment, today) && Resumed(granted, next, enrollment, today)
      && Wallet(next, other) == Wallet(db, other)
      && next.entries == granted.entries && next.allocations == granted.allocations
  {
    hide Converted, Resumed, Wallet, Good, AfterConvert, FutureCharges, ConvertError, PlanOf, Missing, CourseOk;
    ConvertedByRequest(db, enrollment, paymentDay, today, now, actor, other);
    var granted := Next(db, Converting(enrollment, paymentDay, today, now, actor));
    ReadyToResume(db, granted, enrollment, today);
    ConvertedIsGood(db, granted, enrollment, today);
    ResumedByRequest(granted, enrollment, paymentDay, today, now, actor, other);
  }

  lemma ReadyToResume(db: Db, granted: Db, enrollment: nat, today: int)
    requires Converted(db, granted, enrollment, today)
    ensures EnrollmentReady(granted, enrollment)
    ensures granted.enrollments[enrollment].status == Active && granted.enrollments[enrollment].mode == Grant
  {
    assert EnrollmentRowOk(granted, enrollment);
  }

  lemma ConvertedIsGood(db: Db, granted: Db, enrollment: nat, today: int)
    requires Converted(db, granted, enrollment, today)
    ensures Good(granted)
  {
  }

  lemma SameMonths(db: Db, next: Db, enrollment: nat, month: nat, day: int)
    requires SameTerms(db, next)
    ensures Starts(next, enrollment) == Starts(db, enrollment)
    ensures MonthFromDay(next, enrollment, month, day) == MonthFromDay(db, enrollment, month, day)
  {
    hide CourseOk, Starts, InTime;
    StartsKept(db, next, enrollment);
  }

  /** After both requests each month owes what it owed, changed by `MonthChange`. */
  lemma {:induction false} MonthAfterBoth(db: Db, granted: Db, next: Db, enrollment: nat, today: int, month: nat)
    requires Converted(db, granted, enrollment, today) && Resumed(granted, next, enrollment, today)
    ensures MonthDebt(next, enrollment, month)
      == MonthDebt(db, enrollment, month) + MonthChange(db, enrollment, today, month)
  {
    hide ActiveOn, Starts, InTime, RowsOk, Balanced, Scheduled, MonthFromDay, StartsFrom, Granted;
    SameMonths(db, granted, enrollment, month, today + 1);
    MonthAfterResumption(granted, next, enrollment, today, month);
    if Billed(db, enrollment, month) {
      var c :| 0 <= c < |db.charges| && LiveTuition(db, enrollment, c) && db.charges[c].sequenceNo == month;
      GoodIsSound(db);
      MonthAfterConversion(db, granted, enrollment, today, c);
      BilledMonthOwes(db, enrollment, c);
      MonthAtPrice(db, enrollment, c);
      ActiveIsNatural(db, c);
      LaterIsFromToday(db, enrollment, month, today);
    } else {
      UnbilledAfterConversion(db, granted, enrollment, today, month);
      UnbilledMonthOwesNothing(db, enrollment, month);
      LaterIsFromToday(db, enrollment, month, today);
    }
  }

  lemma ActiveIsNatural(db: Db, c: nat)
    requires Good(db) && c < |db.charges|
    ensures 0 <= ActiveOn(db, c) <= db.charges[c].amount && 0 < db.charges[c].amount
  {
    assert ChargeBalanced(db, c) && ChargeRowOk(db, c);
  }

  lemma LaterIsFromToday(db: Db, enrollment: nat, month: nat, today: int)
    ensures MonthFromDay(db, enrollment, month, today + 1) ==> MonthFromDay(db, enrollment, month, today)
  {
    hide Starts, InTime;
  }

  lemma FeesKept(db: Db, granted: Db, next: Db, enrollment: nat, today: int)
    requires Converted(db, granted, enrollment, today) && Resumed(granted, next, enrollment, today)
    ensures OtherDebt(next, enrollment) == OtherDebt(db, enrollment)
  {
    hide ActiveOn, Starts, Billed, MonthFromDay, Balanced, Scheduled, Granted;
    var n := |db.charges|;
    var kept, added := next.charges[..n], next.charges[n..];
    assert next.charges == kept + added;
    SumConcat(kept, added, OtherDebtOf(next, enrollment));
    forall i | 0 <= i < |added|
      ensures OtherDebtOf(next, enrollment)(added[i]) == 0
    {
      assert added[i] == next.charges[n + i];
    }
    SumZero(added, OtherDebtOf(next, enrollment));
    forall i | 0 <= i < n ensures OtherDebtOf(db, enrollment)(db.charges[i]) == OtherDebtOf(next, enrollment)(kept[i]) {
      assert ChargeRowOk(db, i);
      assert kept[i] == granted.charges[i];
      if StartsFrom(db, enrollment, today, i) { assert Granted(db, granted, i); StatusOnly(db, granted, i); }
    }
    SumMapped(db.charges, kept, OtherDebtOf(db, enrollment), OtherDebtOf(next, enrollment));
  }

  lemma StatusOnly(db: Db, next: Db, c: nat)
    requires Granted(db, next, c)
    ensures next.charges[c].kind == db.charges[c].kind
  {
  }

  /** What the enrollment owes after both requests: what it owed, and the changes of its
      months. */
  lemma {:induction false} RoundTripDebt(db: Db, enrollment: nat, paymentDay: Option<nat>, today: int, now: nat,
                                         actor: int, other: int)
    requires Good(db) && ErrorOf(db, Converting(enrollment, paymentDay, today, now, actor)).None?
    ensures var next := AfterBoth(db, enrollment, paymentDay, today, now, actor);
      && ErrorOf(Next(db, Converting(enrollment, paymentDay, today, now, actor)),
        Resuming(enrollment, paymentDay, today, now, actor)).None?
      && Wallet(next, other) == Wallet(db, other)
      && (forall month: nat ::
        MonthDebt(next, enrollment, month)
        == MonthDebt(db, enrollment, month) + MonthChange(db, enrollment, today, month))
      && EnrollmentDebt(next, enrollment) == EnrollmentDebt(db, enrollment)
           + Sum(Months(|Starts(db, enrollment)|), MonthChangeAt(db, enrollment, today))
  {
    hide Next, ErrorOf, Converted, Resumed, Wallet, Good, Starts, MonthDebt, MonthChange, EnrollmentDebt, OtherDebt,
      AfterBoth;
    BothSteps(db, enrollment, paymentDay, today, now, actor, other);
    var granted, next := Next(db, Converting(enrollment, paymentDay, today, now, actor)),
      AfterBoth(db, enrollment, paymentDay, today, now, actor);
    forall month: nat
      ensures MonthDebt(next, enrollment, month)
        == MonthDebt(db, enrollment, month) + MonthChange(db, enrollment, today, month)
    {
      MonthAfterBoth(db, granted, next, enrollment, today, month);
    }
    FeesKept(db, granted, next, enrollment, today);
    BothHaveMonths(db, granted, next, enrollment, today);
    DebtByMonth(db, enrollment);
    DebtByMonth(next, enrollment);
    SumPlus<nat>(Months(|Starts(db, enrollment)|), MonthDebtAt(db, enrollment), MonthChangeAt(db, enrollment, today),
      MonthDebtAt(next, enrollment));
  }

  lemma BothHaveMonths(db: Db, granted: Db, next: Db, enrollment: nat, today: int)
    requires Converted(db, granted, enrollment, today) && Resumed(granted, next, enrollment, today)
    ensures Starts(next, enrollment) == Starts(db, enrollment)
    ensures RowsOk(db) && Scheduled(db) && RowsOk(next) && Scheduled(next)
    ensures enrollment < |db.enrollments| && enrollment < |next.enrollments|
  {
    hide Starts, InTime, CourseOk, ActiveOn, Billed;
    SameMonths(db, granted, enrollment, 0, 0);
    SameMonths(granted, next, enrollment, 0, 0);
  }

  // ---------------------------------------------------------------------------
  // When the two requests undo each other
  // ---------------------------------------------------------------------------

  /** No month from today on is partly paid, no month that starts today is unpaid, and
      every later planned month is billed. */
  ghost predicate NothingToLose(db: Db, enrollment: nat, paymentDay: Option<nat>, today: int) {
    && EnrollmentReady(db, enrollment)
    && (forall c :: 0 <= c < |db.charges| && StartsFrom(db, enrollment, today, c) ==>
          && !WritesOff(db, c)
          && (!StartsFrom(db, enrollment, today + 1, c) ==> 0 < ActiveOn(db, c)))
    && Missing(db, enrollment, today, PlanOf(db, enrollment, paymentDay)) == []
  }

  /** Resuming on the day of the conversion restores what every month owed if and only if
      there was nothing to lose. */
  lemma {:induction false} RoundTripRestores(db: Db, enrollment: nat, paymentDay: Option<nat>, today: int, now: nat,
                                             actor: int)
    requires Good(db) && ErrorOf(db, Converting(enrollment, paymentDay, today, now, actor)).None?
    ensures var next := AfterBoth(db, enrollment, paymentDay, today, now, actor);
      (forall month: nat :: MonthDebt(next, enrollment, month) == MonthDebt(db, enrollment, month))
      <==> NothingToLose(db, enrollment, paymentDay, today)
  {
    hide Good, AfterBoth, Starts, MonthDebt, MonthChange, ErrorOf, NothingToLose;
    RoundTripDebt(db, enrollment, paymentDay, today, now, actor, 0);
    ReadyToConvert(db, enrollment, paymentDay, today, now, actor);
    if NothingToLose(db, enrollment, paymentDay, today) {
      forall month: nat
        ensures MonthChange(db, enrollment, today, month) == 0
      {
        NothingLost(db, enrollment, paymentDay, today, month);
      }
    } else {
      SomethingLost(db, enrollment, paymentDay, today);
    }
  }

  lemma ReadyToConvert(db: Db, enrollment: nat, paymentDay: Option<nat>, today: int, now: nat, actor: int)
    requires ErrorOf(db, Converting(enrollment, paymentDay, today, now, actor)).None?
    ensures EnrollmentReady(db, enrollment)
  {
  }

  lemma MonthOfCharge(db: Db, enrollment: nat, c: nat, day: int)
    requires Good(db) && enrollment < |db.enrollments| && LiveTuition(db, enrollment, c)
    ensures MonthFromDay(db, enrollment, db.charges[c].sequenceNo, day) == StartsFrom(db, enrollment, day, c)
    ensures Billed(db, enrollment, db.charges[c].sequenceNo)
    ensures MonthDebt(db, enrollment, db.charges[c].sequenceNo) == Remaining(db, c)
      == db.enrollments[enrollment].price - ActiveOn(db, c)
    ensures 0 <= ActiveOn(db, c) <= db.enrollments[enrollment].price && 0 < db.enrollments[enrollment].price
  {
    hide ActiveOn, Starts, RowsOk, Balanced, CourseOk;
    GoodIsSound(db);
    assert BillsMonth(db, enrollment, c);
    BilledMonthOwes(db, enrollment, c);
    ActiveIsNatural(db, c);
  }

  lemma {:induction false} NothingLost(db: Db, enrollment: nat, paymentDay: Option<nat>, today: int, month: nat)
    requires Good(db) && NothingToLose(db, enrollment, paymentDay, today)
    ensures MonthChange(db, enrollment, today, month) == 0
  {
    hide ActiveOn, Starts, MonthFromDay, StartsFrom, Missing, PlanOf, MonthDebt, CourseOk, Good;
    LaterIsFromToday(db, enrollment, month, today);
    if Billed(db, enrollment, month) {
      var c :| 0 <= c < |db.charges| && LiveTuition(db, enrollment, c) && db.charges[c].sequenceNo == month;
      MonthOfCharge(db, enrollment, c, today);
      MonthOfCharge(db, enrollment, c, today + 1);
    } else {
      UnbilledMonthOwesNothing(db, enrollment, month);
      if MonthFromDay(db, enrollment, month, today + 1) { UnbilledIsMissing(db, enrollment, paymentDay, today, month); }
    }
  }

  lemma {:induction false} UnbilledIsMissing(db: Db, enrollment: nat, paymentDay: Option<nat>, today: int, month: nat)
    requires Good(db) && MonthFromDay(db, enrollment, month, today + 1) && !Billed(db, enrollment, month)
    ensures EnrollmentReady(db, enrollment) && Missing(db, enrollment, today, PlanOf(db, enrollment, paymentDay)) != []
  {
    hide Starts, PlanOf, CourseOk, Balanced, Scheduled, Billed;
    GoodIsSound(db);
    PlanLength(db, enrollment, paymentDay);
    PlanRow(db, enrollment, paymentDay, month - 1);
    MissingComplete(db, enrollment, today, PlanOf(db, enrollment, paymentDay), month - 1);
  }

  lemma {:induction false} MissingIsUnbilled(db: Db, enrollment: nat, paymentDay: Option<nat>, today: int)
    returns (month: nat)
    requires Good(db) && EnrollmentReady(db, enrollment)
    requires Missing(db, enrollment, today, PlanOf(db, enrollment, paymentDay)) != []
    ensures MonthFromDay(db, enrollment, month, today + 1) && !Billed(db, enrollment, month)
  {
    hide Starts, PlanOf, CourseOk, Balanced, Scheduled, Billed;
    GoodIsSound(db);
    var plan := PlanOf(db, enrollment, paymentDay);
    MissingRow(db, enrollment, today, plan, 0);
    var i :| 0 <= i < |plan| && plan[i] == Missing(db, enrollment, today, plan)[0];
    PlanRow(db, enrollment, paymentDay, i);
    month := i + 1;
  }

  lemma {:induction false} SomethingLost(db: Db, enrollment: nat, paymentDay: Option<nat>, today: int)
    requires Good(db) && EnrollmentReady(db, enrollment) && !NothingToLose(db, enrollment, paymentDay, today)
    ensures exists month: nat :: MonthChange(db, enrollment, today, month) != 0
  {
    hide ActiveOn, Starts, MonthFromDay, StartsFrom, Missing, PlanOf, MonthDebt, CourseOk, Good, Billed;
    if Missing(db, enrollment, today, PlanOf(db, enrollment, paymentDay)) != [] {
      var month := MissingIsUnbilled(db, enrollment, paymentDay, today);
      LaterIsFromToday(db, enrollment, month, today);
      assert MonthChange(db, enrollment, today, month) == db.enrollments[enrollment].price;
    } else {
      var c :| 0 <= c < |db.charges| && StartsFrom(db, enrollment, today, c)
        && (WritesOff(db, c) || (!StartsFrom(db, enrollment, today + 1, c) && ActiveOn(db, c) <= 0));
      LiveFrom(db, enrollment, today, c);
      MonthOfCharge(db, enrollment, c, today);
      MonthOfCharge(db, enrollment, c, today + 1);
      assert MonthChange(db, enrollment, today, db.charges[c].sequenceNo) != 0;
    }
  }

  lemma LiveFrom(db: Db, enrollment: nat, day: int, c: nat)
    requires StartsFrom(db, enrollment, day, c)
    ensures LiveTuition(db, enrollment, c)
  {
  }

  function MonthLossAt(db: Db, enrollment: nat, today: int): nat -> int {
    (month: nat) => -MonthChange(db, enrollment, today, month)
  }

  /** When every later planned month is billed, no month owes more than before. */
  lemma {:induction false} OnlyLosses(db: Db, enrollment: nat, paymentDay: Option<nat>, today: int, month: nat)
    requires Good(db) && EnrollmentReady(db, enrollment)
    requires Missing(db, enrollment, today, PlanOf(db, enrollment, paymentDay)) == []
    ensures MonthChange(db, enrollment, today, month) <= 0
    ensures MonthChange(db, enrollment, today, month) != 0 ==> 1 <= month <= |Starts(db, enrollment)|
  {
    hide ActiveOn, Starts, Missing, PlanOf, MonthDebt, CourseOk, Good, InTime;
    if Billed(db, enrollment, month) {
      var c :| 0 <= c < |db.charges| && LiveTuition(db, enrollment, c) && db.charges[c].sequenceNo == month;
      MonthOfCharge(db, enrollment, c, today);
    } else {
      UnbilledMonthOwesNothing(db, enrollment, month);
      if MonthFromDay(db, enrollment, month, today + 1) { UnbilledIsMissing(db, enrollment, paymentDay, today, month); }
    }
  }

  /** And then the enrollment's debt as a whole is restored if and only if there was
      nothing to lose. */
  lemma {:induction false} RoundTripRestoresDebt(db: Db, enrollment: nat, paymentDay: Option<nat>, today: int, now: nat,
                                                 actor: int)
    requires Good(db) && ErrorOf(db, Converting(enrollment, paymentDay, today, now, actor)).None?
    requires EnrollmentReady(db, enrollment) && Missing(db, enrollment, today, PlanOf(db, enrollment, paymentDay)) == []
    ensures EnrollmentDebt(AfterBoth(db, enrollment, paymentDay, today, now, actor), enrollment)
      == EnrollmentDebt(db, enrollment)
      <==> NothingToLose(db, enrollment, paymentDay, today)
  {
    hide Good, AfterBoth, Starts, MonthDebt, MonthChange, ErrorOf, NothingToLose, EnrollmentDebt, Missing,
      EnrollmentReady;
    var months, change, loss := Months(|Starts(db, enrollment)|), MonthChangeAt(db, enrollment, today),
      MonthLossAt(db, enrollment, today);
    RoundTripDebt(db, enrollment, paymentDay, today, now, actor, 0);
    SumPlus<nat>(months, change, loss, (month: nat) => 0);
    SumZero<nat>(months, (month: nat) => 0);
    forall j | 0 <= j < |months|
      ensures 0 <= loss(months[j])
    {
      OnlyLosses(db, enrollment, paymentDay, today, months[j]);
    }
    if NothingToLose(db, enrollment, paymentDay, today) {
      forall j | 0 <= j < |months|
        ensures change(months[j]) == 0
      {
        NothingLost(db, enrollment, paymentDay, today, months[j]);
      }
      SumZero<nat>(months, change);
    } else {
      SomethingLost(db, enrollment, paymentDay, today);
      var month: nat :| MonthChange(db, enrollment, today, month) != 0;
      OnlyLosses(db, enrollment, paymentDay, today, month);
      assert months[month - 1] == month;
      SumMember<nat>(months, month - 1, loss);
    }
  }
}
