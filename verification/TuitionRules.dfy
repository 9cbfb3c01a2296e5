/**
 What the requests about tuition raise, cancel and report, in terms of the plan of the
 enrollment and of the rows there were.
 */
module TuitionRules {
  import opened Wrappers
  import opened Sums
  import opened Calendar
  import opened Schedule
  import opened Tables
  import opened Queries
  import opened Crediting
  import opened Withdrawals
  import opened Billing
  import opened Grants
  import opened Operations
  import opened Rules

  // ---------------------------------------------------------------------------
  // The charges a request raises
  // ---------------------------------------------------------------------------

  /** One open tuition charge for each month of the plan, after the charges there were. */
  ghost predicate Raises(db: Db, next: Db, enrollment: nat, student: int, plan: seq<PlannedCharge>) {
    var n := |db.charges|;
    && db.charges <= next.charges && |next.charges| == n + |plan|
    && forall i :: 0 <= i < |plan| ==>
         next.charges[n + i]
           == Charge(n + i, enrollment, student, plan[i].sequenceNo, plan[i].amount, plan[i].dueDay, Tuition, Open)
  }

  /** The student's own payment day, or the default one where it is not set or zero. */
  predicate PaysOn(start: Date, paymentDay: Option<nat>, day: nat) {
    if paymentDay == None || paymentDay == Some(0) then day == DefaultPaymentDay(start) else paymentDay == Some(day)
  }

  /** The plan of an enrollment with payments on `day`. */
  function WholePlan(db: Db, enrollment: nat, day: nat): seq<PlannedCharge>
    requires EnrollmentReady(db, enrollment)
  {
    var e := db.enrollments[enrollment];
    var course := db.courses[e.course];
    Plan(course.start, DayNumber(course.end), LocalDay(e.enrolledAt), day, e.price)
  }

  lemma PlanPaysOn(db: Db, enrollment: nat, paymentDay: Option<nat>, day: nat)
    requires EnrollmentReady(db, enrollment)
    requires PaysOn(db.courses[db.enrollments[enrollment].course].start, paymentDay, day)
    ensures PlanOf(db, enrollment, paymentDay) == WholePlan(db, enrollment, day)
  {
    hide Plan, DayNumber, LocalDay;
  }

  lemma RowsRaised(db: Db, enrollment: nat, student: int, plan: seq<PlannedCharge>)
    ensures Raises(db, AddCharges(db, ChargesFromPlan(db, enrollment, student, plan)), enrollment, student, plan)
    ensures Raises(db, db, enrollment, student, [])
  {
  }

  /** Generating raises the whole plan of an enrollment that is not on a grant and has no
      charge of any kind yet, and nothing otherwise. */
  lemma {:induction false} GenerateRaises(db: Db, op: Operation, day: nat)
    requires Good(db) && op.Generate? && op.enrollment < |db.enrollments|
    requires EnrollmentReady(db, op.enrollment)
    requires PaysOn(db.courses[db.enrollments[op.enrollment].course].start, op.paymentDay, day)
    ensures Raises(db, Next(db, op), op.enrollment, db.enrollments[op.enrollment].student,
      if db.enrollments[op.enrollment].mode == Grant ||
        exists c :: 0 <= c < |db.charges| && db.charges[c].enrollment == op.enrollment
      then [] else WholePlan(db, op.enrollment, day))
  {
    hide WholePlan, PlanOf, EnrollmentReady, Raises, ChargesFromPlan;
    PlanPaysOn(db, op.enrollment, op.paymentDay, day);
    RowsRaised(db, op.enrollment, db.enrollments[op.enrollment].student, PlanOf(db, op.enrollment, op.paymentDay));
  }

  /** Enrolling raises the whole plan of the new enrollment, and nothing on a grant. */
  lemma {:induction false} EnrollRaises(db: Db, op: Operation, day: nat)
    requires Good(db) && op.Enroll? && IsAccepted(db, op)
    requires PaysOn(db.courses[op.course].start, op.paymentDay, day)
    ensures var next, n := Next(db, op), |db.enrollments|;
      && EnrollmentReady(next, n)
      && Raises(db, next, n, op.student, if op.mode == Grant then [] else WholePlan(next, n, day))
  {
    hide WholePlan, PlanOf, EnrollmentReady, Raises, ChargesFromPlan, HasCharges, Good;
    var e, n := Enrollment(op.student, op.course, op.price, op.enrolledAt, Active, op.mode), |db.enrollments|;
    var added := AddEnrollment(db, e);
    GoodIsSound(db);
    AddEnrollmentEffect(db, e, op.student);
    PlanPaysOn(added, n, op.paymentDay, day);
    RowsRaised(added, n, op.student, PlanOf(added, n, op.paymentDay));
    SamePlan(added, Next(db, op), n, day);
    RaisedAfter(db, added, Next(db, op), n, op.student, if op.mode == Grant then [] else WholePlan(added, n, day));
  }

  lemma SamePlan(db: Db, next: Db, enrollment: nat, day: nat)
    requires EnrollmentReady(db, enrollment) && next == db.(charges := next.charges)
    ensures EnrollmentReady(next, enrollment) && WholePlan(next, enrollment, day) == WholePlan(db, enrollment, day)
  {
    hide CourseOk, Plan;
    assert EnrollmentRowOk(next, enrollment);
  }

  lemma RaisedAfter(db: Db, added: Db, next: Db, enrollment: nat, student: int, plan: seq<PlannedCharge>)
    requires added.charges == db.charges && Raises(added, next, enrollment, student, plan)
    ensures Raises(db, next, enrollment, student, plan)
  {
  }

  /** A live tuition charge of the enrollment has that number. */
  ghost predicate HasMonth(db: Db, enrollment: nat, number: nat) {
    exists c :: 0 <= c < |db.charges| && db.charges[c].enrollment == enrollment && db.charges[c].kind == Tuition
      && db.charges[c].status != Cancelled && db.charges[c].sequenceNo == number
  }

  lemma {:induction false} MissingInOrder(db: Db, enrollment: nat, today: int, plan: seq<PlannedCharge>)
    requires forall i, j :: 0 <= i < j < |plan| ==> plan[i].sequenceNo < plan[j].sequenceNo
    ensures var missing := Missing(db, enrollment, today, plan);
      forall i, j :: 0 <= i < j < |missing| ==> missing[i].sequenceNo < missing[j].sequenceNo
  {
    if plan != [] {
      var front := plan[..|plan| - 1];
      MissingInOrder(db, enrollment, today, front);
      forall k | 0 <= k < |Missing(db, enrollment, today, front)|
        ensures Missing(db, enrollment, today, front)[k].sequenceNo < plan[|plan| - 1].sequenceNo
      {
        MissingRow(db, enrollment, today, front, k);
      }
    }
  }

  lemma MissingExactly(db: Db, enrollment: nat, today: int, plan: seq<PlannedCharge>, p: PlannedCharge)
    ensures p in Missing(db, enrollment, today, plan) <==>
      p in plan && today < DayNumber(p.periodStart) && !HasMonth(db, enrollment, p.sequenceNo)
  {
    hide DayNumber;
    var missing := Missing(db, enrollment, today, plan);
    assert HasMonth(db, enrollment, p.sequenceNo) <==> Billed(db, enrollment, p.sequenceNo);
    if p in missing {
      var k :| 0 <= k < |missing| && missing[k] == p;
      MissingRow(db, enrollment, today, plan, k);
    }
    if p in plan && today < DayNumber(p.periodStart) && !Billed(db, enrollment, p.sequenceNo) {
      var i :| 0 <= i < |plan| && plan[i] == p;
      MissingComplete(db, enrollment, today, plan, i);
    }
  }

  lemma {:induction false} SameMissing(db: Db, next: Db, enrollment: nat, today: int, plan: seq<PlannedCharge>)
    requires next.charges == db.charges
    ensures Missing(next, enrollment, today, plan) == Missing(db, enrollment, today, plan)
  {
    hide DayNumber;
    if plan != [] {
      SameMissing(db, next, enrollment, today, plan[..|plan| - 1]);
      forall c: nat ensures LiveTuition(next, enrollment, c) == LiveTuition(db, enrollment, c) {}
    }
  }

  lemma PlanInOrder(db: Db, enrollment: nat, day: nat)
    requires EnrollmentReady(db, enrollment)
    ensures forall i, j :: 0 <= i < j < |WholePlan(db, enrollment, day)| ==>
      WholePlan(db, enrollment, day)[i].sequenceNo < WholePlan(db, enrollment, day)[j].sequenceNo
  {
    hide DayNumber, BilledStarts, DueDay, FirstBilled, CourseMonth;
  }

  /** Going back to paid raises, in order, exactly the months of the plan that start after
      today and have no live charge. */
  lemma {:induction false} ResumeRaises(db: Db, op: Operation, day: nat, p: PlannedCharge)
    requires Good(db) && op.ChangeMode? && op.target == Paid && IsAccepted(db, op)
    requires EnrollmentReady(db, op.enrollment)
    requires PaysOn(db.courses[db.enrollments[op.enrollment].course].start, op.paymentDay, day)
    ensures var plan := WholePlan(db, op.enrollment, day);
      var raised := Missing(db, op.enrollment, op.today, plan);
      && Raises(db, Next(db, op), op.enrollment, db.enrollments[op.enrollment].student, raised)
      && (p in raised <==>
            p in plan && op.today < DayNumber(p.periodStart) && !HasMonth(db, op.enrollment, p.sequenceNo))
      && forall i, j :: 0 <= i < j < |raised| ==> raised[i].sequenceNo < raised[j].sequenceNo
  {
    var n, student, paid := op.enrollment, db.enrollments[op.enrollment].student, WithMode(db, op.enrollment, Paid);
    hide WholePlan, PlanOf, EnrollmentReady, Raises, ChargesFromPlan, Good, DayNumber, Missing, HasMonth, PeriodKey;
    var plan := WholePlan(db, n, day);
    var raised := Missing(db, n, op.today, plan);
    PlanInOrder(db, n, day);
    MissingInOrder(db, n, op.today, plan);
    MissingExactly(db, n, op.today, plan, p);
    StartsKept(db, paid, n);
    PlanPaysOn(paid, n, op.paymentDay, day);
    SameTermsPlan(db, paid, n, day);
    SameMissing(db, paid, n, op.today, plan);
    RowsRaised(paid, n, student, raised);
    RaisedAfter(db, paid, Next(db, op), n, student, raised);
  }

  lemma SameTermsPlan(db: Db, next: Db, enrollment: nat, day: nat)
    requires EnrollmentReady(db, enrollment) && EnrollmentReady(next, enrollment) && SameTerms(db, next)
    ensures WholePlan(next, enrollment, day) == WholePlan(db, enrollment, day)
  {
    hide Plan, DayNumber;
  }

  // ---------------------------------------------------------------------------
  // What a conversion reports
  // ---------------------------------------------------------------------------

  /** The charges a step cancels. */
  ghost function NewlyCancelled(db: Db, next: Db): set<nat> {
    set c: nat | c < |db.charges| && c < |next.charges| && next.charges[c].status == Cancelled
      && db.charges[c].status != Cancelled
  }

  function AmountWithin(ids: set<nat>): Charge -> int {
    (c: Charge) => if c.id in ids then c.amount else 0
  }

  function EntryAmount(): Entry -> int { (e: Entry) => e.amount }

  lemma {:induction false} SumCounts(ids: seq<nat>, v: nat -> int, marked: set<nat>)
    requires Distinct(ids) && forall i :: 0 <= i < |ids| ==> v(ids[i]) == if ids[i] in marked then 1 else 0
    requires forall x :: x in marked ==> x in ids
    ensures Sum(ids, v) == |marked|
  {
    if ids == [] {
      assert marked == {};
    } else {
      var front, last := ids[..|ids| - 1], ids[|ids| - 1];
      assert ids == front + [last];
      forall x | x in marked - {last} ensures x in front { assert x in ids; }
      SumCounts(front, v, marked - {last});
    }
  }

  lemma {:induction false} WriteOffTotal(db: Db, charges: seq<nat>, now: nat, actor: int)
    requires forall j :: 0 <= j < |charges| ==> charges[j] < |db.charges|
    ensures Sum(WriteOffEntries(db, WrittenOff(db, charges), now, actor), EntryAmount())
      == Sum(charges, WrittenOffIn(db))
  {
    hide Remaining, ActiveOn;
    if charges != [] {
      var n := |charges| - 1;
      WriteOffTotal(db, charges[..n], now, actor);
      var front := WrittenOff(db, charges[..n]);
      var off := WritesOff(db, charges[n]);
      assert front + [] == front;
      assert WrittenOffIn(db)(charges[n]) == if off then Remaining(db, charges[n]) else 0;
      if off {
        var entries := WriteOffEntries(db, front, now, actor);
        var last := Entry(|db.entries| + |front|, db.charges[charges[n]].student, Discount, Remaining(db, charges[n]),
          now, actor, None, false);
        assert WriteOffEntries(db, front + [charges[n]], now, actor) == entries + [last];
        SumAppend(entries, last, EntryAmount());
      }
    }
  }

  lemma {:induction false} MonthsCancelled(db: Db, op: Operation)
    requires Good(db) && op.ChangeMode? && op.target == Grant && IsAccepted(db, op)
    ensures var cs := FutureCharges(db, op.enrollment, op.today);
      && Distinct(cs) && (forall j :: 0 <= j < |cs| ==> cs[j] < |db.charges|)
      && forall c: nat :: c in NewlyCancelled(db, Next(db, op)) <==> c in cs && ActiveOn(db, c) <= 0
  {
    hide Starts, ActiveOn, Good, StartsFrom, AfterConvert, FutureCharges, WritesExactly, AnyWriteOff, AnyUnmatched;
    hide PeriodKey, EnrollmentReady;
    GoodIsSound(db);
    Ready(db, op.enrollment);
    ConvertEffect(db, op.enrollment, op.today, op.now, op.recorder, 0);
    FutureChargesSelected(db, op.enrollment, op.today);
    FutureChargesDrop(db, op.enrollment, op.today);
  }

  /** A conversion reports the number of the months it cancelled, their amounts, and the
      total of the discounts it wrote. */
  lemma {:induction false} ConversionReport(db: Db, op: Operation)
    requires Good(db) && op.ChangeMode? && op.target == Grant && IsAccepted(db, op)
    ensures var next, cs := Next(db, op), FutureCharges(db, op.enrollment, op.today);
      && Sum(cs, MonthIn(db)) == |NewlyCancelled(db, next)|
      && Sum(cs, CancelledIn(db)) == Sum(db.charges, AmountWithin(NewlyCancelled(db, next)))
      && db.entries <= next.entries
      && Sum(cs, WrittenOffIn(db)) == Sum(next.entries[|db.entries|..], EntryAmount())
  {
    hide Starts, ActiveOn, Good, StartsFrom, AfterConvert, FutureCharges, NewlyCancelled, Next, ErrorOf, Distinct;
    hide WrittenOffIn, WriteOffEntries, WrittenOff;
    var next, cs := Next(db, op), FutureCharges(db, op.enrollment, op.today);
    var gone := NewlyCancelled(db, next);
    GoodIsSound(db);
    MonthsCancelled(db, op);
    forall i | 0 <= i < |cs| ensures MonthIn(db)(cs[i]) == if cs[i] in gone then 1 else 0 { assert cs[i] in cs; }
    SumCounts(cs, MonthIn(db), gone);
    CancelledAmounts(db, cs, gone);
    EntriesWritten(db, op);
    WriteOffTotal(db, cs, op.now, op.recorder);
    assert next.entries[|db.entries|..] == Written(db, op);
  }

  lemma CancelledAmounts(db: Db, charges: seq<nat>, gone: set<nat>)
    requires RowsOk(db) && Distinct(charges) && forall j :: 0 <= j < |charges| ==> charges[j] < |db.charges|
    requires forall c: nat :: c in gone <==> c in charges && ActiveOn(db, c) <= 0
    ensures Sum(charges, CancelledIn(db)) == Sum(db.charges, AmountWithin(gone))
  {
    hide ActiveOn, Distinct;
    var n := |db.charges|;
    var w := (c: nat) => if c < n then AmountWithin(gone)(db.charges[c]) else 0;
    forall c: nat | c < n ensures w(c) == if c in charges then CancelledIn(db)(c) else 0 {
      assert ChargeRowOk(db, c);
      assert CancelledIn(db)(c) == if ActiveOn(db, c) <= 0 then db.charges[c].amount else 0;
      assert AmountWithin(gone)(db.charges[c]) == if c in gone then db.charges[c].amount else 0;
    }
    SumListed(charges, n, CancelledIn(db), w);
    SumMapped(Range(n), db.charges, w, AmountWithin(gone));
  }
}
