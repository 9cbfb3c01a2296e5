# A model of the ledger of an education centre

The repository runs the back office of an education centre: courses with monthly
tuition, students, payments, discounts, refunds and reports. This project models the
charge and credit ledger behind it, with the services that drive it, and proves what
the ledger keeps over every run. Four concurrent protocols around it are modelled as
state machines: the login lockout limiter, idempotent retries, the locks of accounting
months, and the lease that protects the analytics cache.

Money is whole cents. The ledger is three append-only tables (charges, typed entries,
allocations) plus courses, enrollments, payment targets and accounting months, held in
one value, `Tables.Db`. A row's id is its position. A day is a day number of the
proleptic Gregorian calendar, an instant a second in UTC, a local day is UTC+5.

How the modules fit together:

- `Tables`, `Balances`, `Sums`, `Arithmetic`: the tables, the sums the source computes
  with SQL, the invariant `Integrity`, and that set-based sums equal row-by-row ones.
- `Ordering`, `Queries`: the ordered reads.
- `Waterfall`, `Crediting`, `Placement`: the greedy allocation of `_apply_credit`. A
  list of slices that fills a line without gaps is unique (`Tiles`), which ties the
  source's nested loops to statements about what each entry gave and each charge got.
- `Posting`, `Payments`, `Reversals`, `Concessions`, `Withdrawals`, `Billing`, `Grants`:
  one request each as a function from tables to tables, its effect, and what its loops
  leave behind half way.
- `Calendar`, `Schedule`, `Dues`: course months, due dates and what they mean for every
  charge ever raised.
- `Operations`, `Runs`, `History`, `RoundTrips`, `Witnesses`: every request as one step,
  theorems over runs, two requests that should undo each other, and runs from empty
  tables that show the exceptions.
- `Priority`, `Rules`, `TuitionRules`, `Refusals`: what every request does, said of the
  rows alone: who is served first, what is accepted, written, raised and reported, and which
  error is given when.
- `FinanceService`: a class whose fields are the tables and whose methods are the
  source's methods, loop by loop. Each public method ends in exactly the tables
  `Operations.Next` gives, or rolls back and reports the same error.
- `Reports`, `Journals`: the dashboards' figures, the journals and lesson plans of a
  course, and the row budget of a copy.
- `Merging`, `Idempotency`: requests for different students commute up to ids, and the
  protocol of idempotent retries that runs them side by side on the ledger's tables.
- `Lockout`, `PeriodLocks`, `AnalyticsLease`: the other protocols.

## Where the code is not what one might expect

Each of these is stated exactly in the model.

- The lockout deadline can be pushed back. A script that runs in the last millisecond of
  a window sees no time left and starts the span again. `Lockout.NotPushedBack` says the
  deadline stays fixed if and only if that never happened, and
  `Lockout.LastMillisecondPushesBack` is a run in which it does.
- A lockout window can hold more failures than its limit when failures are recorded
  without a reservation. `Lockout.OnlyUnreservedFailuresExceed` is the exact condition.
- `billed_starts` can list a month for an enrollment on or after the end of the course,
  when the last course month reaches past it. `plan_schedule` returns early for that
  reason. `Schedule.SomeMonthIsBilled` states when the list is empty, and
  `Schedule.MonthListedAfterCourseEnd` is such a course.
- A course month can contain two payment days, and can contain none.
  `Schedule.DueDayMeaning` covers both, and `Schedule.NoPaymentDayThenTwo` is a course
  with one month of each kind.
- Conversion to a grant drops or writes off what months that start today or later owe;
  resumption raises months that start after today and have no live charge. After both on
  one day, a month that starts that day owes nothing, and the rest of a later month that
  was partly paid is not billed again. `RoundTrips.RoundTripDebt` gives what every month owes
  afterwards, `RoundTrips.RoundTripRestores` when that is what it owed before, and
  `Witnesses.UnpaidMonthIsLost` and `Witnesses.WrittenOffMonthIsNotBilled` are runs in
  which it is not.
- The reversing entry of a withdrawal is dated without a period check, so it may fall in
  a closed month. `History.OnlyWithdrawalsBackdate` says exactly which requests do that,
  `History.ClosedMonthGrowsByWithdrawals` lifts it to runs, and
  `Witnesses.WithdrawalEntersClosedMonth` is a run in which it happens.

## Model

| member | source | states |
|---|---|---|
| `Runs.RunConserves` | backend/app/services/finance_service.py:755-1196 | over any sequence of requests, a student's debt less wallet is the sum of the values of the accepted ones: payment -p, void +p, cash refund +c, wallet refund 0, allocation 0, discount -d, adjustment -a, enrollment and resumption plus the months billed, withdrawal and grant minus what they cancel or write off, less what concessions had covered; the books stay consistent throughout |
| `Runs.StepKeepsBooks` | backend/app/services/finance_service.py:629-1196 | one request, accepted or turned down, changes the position by exactly its value and keeps every invariant |
| `Runs.ReachableStateIsSound` | backend/scripts/backfill_finance.py:235-248 | in every reachable state no charge is over-allocated, SETTLED means settled in full, a cancelled charge has nothing, no credit is over-spent, a voided payment has no refund and no active allocation, the wallet clamp changes nothing, wallet and debt are the sums over the student's own entries and charges |
| `Runs.ReachableScheduleIsSound` | backend/app/services/finance_service.py:650-656 | in every state any history reaches, each live tuition charge finds its course month, so the cannot-be-matched error never occurs for generated charges, and no month of an enrollment has two |
| `History.RunIsAppendOnly` | backend/app/services/finance_service.py:329-373 | over any run entries and targets are only appended; an allocation keeps its amount, entry and charge and is reversed at most once; a cancelled charge stays cancelled |
| `History.ClosedMonthIsFrozen` | backend/app/services/finance_service.py:158-183 | while nobody reopens a closed month it stays closed, and no payment, discount, adjustment, void or refund dated in it appears |
| `History.OnlyWithdrawalsBackdate` | backend/app/services/finance_service.py:676-693 | a request adds an entry dated in a closed month if and only if it is an accepted withdrawal, made in that month, of an enrollment not withdrawn yet, that has something to release; the entry is its reversing one |
| `History.ClosedMonthGrowsByWithdrawals` | backend/app/services/finance_service.py:676-693 | over a run during which a month stays closed, an entry dated in it appears if and only if one of the requests is such a withdrawal |
| `Witnesses.WithdrawalEntersClosedMonth` | backend/app/services/finance_service.py:676-693 | for every month, day up to its first, price and partial payment, a reachable state with the month closed in which a withdrawal dates its entry there |
| `History.PeriodsFollowRequests` | backend/app/services/finance_service.py:1978-2044 | a month is closed exactly as the last accepted close or reopen says; no other request touches it |
| `History.AdjustmentCreditNeverReturns` | backend/app/services/finance_service.py:253-261 | what a withdrawal releases of an adjustment can never be spent again: over any run its available credit only shrinks |
| `History.DiscountIsNeverAppliedAgain` | backend/app/services/finance_service.py:375-390 | over any run no allocation is added of a discount that was there before, so what a withdrawal releases of it is gone |
| `Rules.ClosedPaymentStands` | backend/app/services/finance_service.py:158-183 | no request, whenever it is made, adds an entry that voids or refunds a payment dated in a closed month |
| `Rules.ClosedPaymentsStand` | backend/app/services/finance_service.py:158-183 | over a run during which the month of a payment stays closed, no entry that voids or refunds it appears |
| `Rules.EntriesWritten` | backend/app/services/finance_service.py:755-1082 | the exact ledger entries of every request: kind, student, amount, date, recorder, what it reverses and whether cash leaves; only voids and refunds name another entry |
| `Rules.ConversionWritesDiscounts` | backend/app/services/finance_service.py:711-723 | each entry a conversion adds is a discount for the student, with its date and recorder, of exactly what a partly paid month from that day on still needs |
| `Rules.TablesFollowRequests` | backend/app/services/finance_service.py:593-2044 | courses, enrollments, months and payment targets change by the requests for that only, each by its one row or column |
| `Refusals.RefusalsAreExact` | backend/app/services/finance_service.py:863-1196 | for every request but a payment and every error: it is reported if and only if its condition holds, in terms of the rows, the wallet, the debt and the open months, and no earlier check failed |
| `Refusals.PaymentRefusals` | backend/app/services/finance_service.py:769-814 | the same for payments: an improper amount, a closed month, portions that do not add up, a repeated enrollment, or the first portion that cannot be paid or exceeds what its enrollment owes |
| `Refusals.PaymentForCourse` | backend/app/services/finance_service.py:784-791 | a payment that names a course does what a payment of one portion for the first enrollment in it does, and is refused when there is none |
| `Dues.ReachableChargesAreDue` | backend/app/services/finance_service.py:552-591 | every charge of every reachable state has its enrollment's price, belongs to a course month that starts before the course ends, and is due inside the course month its sequence number stands for, not before the enrollment |
| `Dues.LaterInstallmentsAreDueLater` | backend/app/services/finance_service.py:552-591 | a later installment of an enrollment is due later, even when the payment day changed in between |
| `Dues.TakenByDueDate` | backend/app/services/finance_service.py:629-674 | where every charge is due in its month, the charges a withdrawal on a day takes are those whose due date lies in a course month that starts on that day or later |
| `Waterfall.PourIsTheOnlyTiling` | backend/app/services/finance_service.py:392-460 | the slices a merge of the two lists makes are the only ones that fill the line from zero to the total without a gap, cut only where a source or a need ends |
| `Waterfall.GivenOldestFirst` | backend/app/services/finance_service.py:421-459 | what a source gives: nothing before all earlier ones are used up, everything before a later one gives |
| `Waterfall.ReceivedOldestFirst` | backend/app/services/finance_service.py:421-459 | what a need receives: nothing before all earlier ones are met |
| `Waterfall.SliceCount` | backend/app/services/finance_service.py:421-459 | at most sources plus needs less one slices |
| `Crediting.CreditPlaced` | backend/app/services/finance_service.py:392-460 | `_apply_credit` places exactly min(available, needed, limit), creates a row unless that is zero, and at most entries plus charges less one rows |
| `Crediting.CreditGivenOldestFirst` | backend/app/services/finance_service.py:421-459 | an entry is used only once the earlier ones have nothing available |
| `Crediting.CreditReceivedOldestFirst` | backend/app/services/finance_service.py:421-459 | a charge is funded only once the earlier ones of the list are settled |
| `Crediting.CreditRowsSpendable` | backend/app/services/finance_service.py:392-460 | no row over-spends an entry or over-settles a charge |
| `Crediting.WalletIsUsable` | backend/app/services/finance_service.py:284-288 | the credit entries of a student have exactly the wallet available |
| `Placement.PlaceCredit` | backend/app/services/finance_service.py:421-459 | the two nested loops with `settled_by_charge`, `available` and `limit` create exactly those rows |
| `Balances.WalletIsSumOfAvailable` | backend/app/services/finance_service.py:498-536 | the three set-based sums of `get_unallocated_credit` equal the sum of `_entry_available`, and the clamp never fires |
| `Balances.OutstandingIsSumOfRemaining` | backend/app/services/finance_service.py:290-297 | billed less settled is the sum of `_charge_remaining` over live charges, and never negative |
| `Posting.SpendKeepsIntegrity` | backend/app/services/finance_service.py:298-327 | adding rows within balances and recomputing statuses keeps every charge and entry balanced |
| `Posting.SpendPosition` | backend/app/services/finance_service.py:392-460 | moving credit onto charges changes the position only by what discounts fund |
| `Ordering.OrderBySelects` | backend/app/services/finance_service.py:375-390 | an ordered read lists exactly the rows of its filter, once each, in key order |
| `Ordering.SelectsUnique` | backend/app/services/finance_service.py:375-390 | there is only one such list |
| `Payments.PaymentEffect` | backend/app/services/finance_service.py:755-861 | an accepted payment is applied in full, lowers the debt by its amount and leaves every wallet alone |
| `Payments.PaymentSplit` | backend/app/services/finance_service.py:816-844 | each stored target receives exactly its amount, and each charge of the ordered list its share of the portion of its enrollment, what is left when the earlier ones of the list have what they need |
| `Priority.PaymentInOrder` | backend/app/services/finance_service.py:826-844 | of two charges of one enrollment, in the order of due date, sequence number and id, an accepted payment adds to the later one only if the earlier one ends settled in full |
| `Payments.OpenBalanceIsNeeded` | backend/app/services/finance_service.py:796-814 | the maximum a target is checked against is what the allocation loop can place |
| `Payments.PaymentInFull` | backend/app/services/finance_service.py:834-844 | the shares of all charges add up to the payment |
| `Reports.OfferedIsAccepted` | backend/app/services/finance_service.py:784-814 | a payment is accepted if and only if its portions add up, name each enrollment once, stay within the offered maxima and fall in an open month |
| `Reports.OffersAreTheLimits` | backend/app/services/finance_service.py:1887-1916 | the maximum offered by `get_payment_options` is the maximum accepted |
| `FinanceService.FinanceService.CreatePayment` | backend/app/services/finance_service.py:755-861 | the method checks in the source's order and ends in the specified tables, or leaves them as they were and reports the same error |
| `FinanceService.FinanceService.SettleTargets` | backend/app/services/finance_service.py:834-844 | the loop over `remaining` ends with zero left of every portion |
| `Reversals.UnapplyNewestFirst` | backend/app/services/finance_service.py:329-373 | `_reverse_allocations` takes back exactly min(requested, active), newest first, with at most one survivor row |
| `Reversals.ReversalKeepsIntegrity` | backend/app/services/finance_service.py:329-373 | a void or refund keeps every invariant |
| `Reversals.VoidEffect` | backend/app/services/finance_service.py:964-1010 | a void takes everything off the charges, removes the rest from the wallet and raises the position by the payment |
| `Reversals.RefundEffect` | backend/app/services/finance_service.py:1012-1082 | a wallet refund moves no position, a cash refund raises it by what is paid out |
| `Reversals.FreshPaymentIsVoidable` | backend/app/services/finance_service.py:219-251 | a payment just recorded can be voided if and only if both dates are in open months |
| `Reversals.VoidUndoesPayment` | backend/app/services/finance_service.py:755-1010 | voiding a fresh payment restores every charge, status, debt and wallet |
| `Rules.VoidRule` | backend/app/services/finance_service.py:964-1010 | accepted if and only if it is a payment, no void and no refund names it, and both its own month and the current one are open; then only active rows of it are reversed, all by the new entry, and none stays applied |
| `Rules.RefundRule` | backend/app/services/finance_service.py:1012-1082 | accepted if and only if the role is there, it is a payment no void names, both months are open and the amount is within the payment less earlier refunds; then only active rows of it are reversed, of the oldest of them a part is put back on the same charge, and the applied part falls by the amount, to zero at least |
| `FinanceService.FinanceService.ReverseAllocations` | backend/app/services/finance_service.py:329-373 | the loop that stamps rows and decrements `remaining` leaves exactly the specified rows and reports every charge that changed |
| `FinanceService.FinanceService.VoidPaymentEntry` | backend/app/services/finance_service.py:964-1010 | refused for an unknown, voided or refunded payment and when either date is in a closed month, leaving the tables as they were; otherwise ends in the tables whose balances `VoidEffect` gives |
| `FinanceService.FinanceService.RefundPaymentEntry` | backend/app/services/finance_service.py:1012-1082 | refused for staff without the role, an unknown or voided payment, a closed month of the payment or of today, or more than is refundable, as `Rules.RefundRule` says; otherwise ends in the tables whose balances `RefundEffect` gives |
| `FinanceService.FinanceService.RecomputeChargeStatus` | backend/app/services/finance_service.py:298-327 | only the given charges change, each to the status its allocations call for; a cancelled one stays |
| `FinanceService.FinanceService.ApplyCredit` | backend/app/services/finance_service.py:392-460 | in-place allocation and status recomputation of the touched charges equals the specified step |
| `Concessions.DiscountEffect` | backend/app/services/finance_service.py:863-924 | a discount is applied in full to its charge, so the check after `_apply_credit` never fails |
| `Concessions.AdjustmentEffect` | backend/app/services/finance_service.py:926-962 | an adjustment only adds to the wallet |
| `Concessions.AllocateEffect` | backend/app/services/finance_service.py:1123-1196 | the charge and the wallet move by the amount the check accepted, and nobody else is touched |
| `Concessions.AllocatePlaces` | backend/app/services/finance_service.py:1143-1183 | the accepted amount is available and needed, so it is placed in full |
| `Concessions.CourseCreditPlaces` | backend/app/services/finance_service.py:1084-1121 | `allocate_course_credit` places exactly the accepted amount, at least one row |
| `Concessions.CourseCreditEffect` | backend/app/services/finance_service.py:1084-1121 | debt and wallet move by the amount the check accepted, and nobody else is touched |
| `Rules.AllocationRule` | backend/app/services/finance_service.py:1123-1196 | accepted if and only if the charge is an open one of the student, the wallet is not empty and what is asked for is in the wallet and still needed; then exactly what was asked for moves onto that charge, and without a wish the wallet ends empty or the charge settled; no other charge, student or table changes |
| `Rules.CourseCreditRule` | backend/app/services/finance_service.py:1084-1121 | accepted if and only if the enrollment is the student's and owes something, the wallet is not empty and what is asked for is in the wallet and still owed; then exactly what was asked for leaves the wallet and the debt of that enrollment, and without a wish one of the two ends at zero; no charge of another enrollment changes |
| `Concessions.ListBalanceIsNeed` | backend/app/services/finance_service.py:1100-1104 | amounts less allocations over a list is what its charges need |
| `Concessions.AutoAllocateEffect` | backend/app/services/finance_service.py:462-496 | afterwards the student has no credit left or owes nothing, and the position is unchanged |
| `Concessions.PreferredFirst` | backend/app/services/finance_service.py:462-496 | another charge gains something only once every live charge of the preferred enrollment is settled |
| `Priority.AutoAllocationInOrder` | backend/app/services/finance_service.py:375-390 | among the charges of the preferred enrollment, and among the others, a charge gains only if every earlier one by due date, sequence number and id ends settled in full |
| `Priority.CourseCreditInOrder` | backend/app/services/finance_service.py:1094-1099 | course credit settles the charges of the enrollment by due date, then id |
| `Priority.CreditTakenOldestFirst` | backend/app/services/finance_service.py:1113-1183 | whichever way credit is applied, no payment or adjustment of the student gives anything before every older one, by date and id, is used up |
| `FinanceService.FinanceService.CreateDiscount` | backend/app/services/finance_service.py:863-924 | every refusal after the entry is saved takes the entry back; an accepted one ends in the tables whose balances `DiscountEffect` gives |
| `FinanceService.FinanceService.CreateAdjustment` | backend/app/services/finance_service.py:926-962 | refused without the role or in a closed month; otherwise the wallet grows as `AdjustmentEffect` says |
| `FinanceService.FinanceService.AllocateCredit` | backend/app/services/finance_service.py:1123-1196 | the seven refusals in the source's order; otherwise exactly the requested amount leaves the wallet, or the wallet ends empty or the charge settled, and the answer is the last entry used |
| `FinanceService.FinanceService.PayCharge` | backend/app/services/finance_service.py:1167-1183 | the loop ends with nothing outstanding |
| `FinanceService.FinanceService.AllocateCourseCredit` | backend/app/services/finance_service.py:1084-1121 | the refusals in the source's order; otherwise the answer is what left the wallet, which is the requested amount, or else empties the wallet or settles the enrollment; `created` is not empty |
| `FinanceService.FinanceService.AutoAllocateStudentCredit` | backend/app/services/finance_service.py:462-496 | the early returns of the source leave the tables the full computation would |
| `Schedule.CourseMonthsIncrease` | backend/app/services/finance_service.py:86-91 | course months strictly increase, so the scan ends |
| `Schedule.CourseMonthMeaning` | backend/app/services/finance_service.py:84-91 | course month k starts k calendar months later on the same day, or on the last day of a month that is too short |
| `Schedule.SomeMonthIsBilled` | backend/app/services/finance_service.py:94-103 | something is billed if and only if the enrollment precedes the end of the last course month, hence whenever it precedes the end of the course |
| `Schedule.BilledExactly` | backend/app/services/finance_service.py:93-102 | the billed months are exactly the course months that start before the course ends and are not over at enrollment, in ascending order |
| `Schedule.MonthListedAfterCourseEnd` | backend/app/services/finance_service.py:94-103 | a course that ends inside its month lists the month for students who enroll after the course |
| `Schedule.ScanBilledStarts` | backend/app/services/finance_service.py:94-103 | the scan returns the consecutive course months from the first not over at enrollment |
| `Schedule.DueDayMeaning` | backend/app/services/finance_service.py:569-577 | a due day lies in its own course month and is the first payment day in it, or its last day when it has none |
| `Schedule.NoPaymentDayThenTwo` | backend/app/services/finance_service.py:569-577 | a course from the 31st of January of a common year, with payments on the 28th, has a month without a payment day and then one with two |
| `Schedule.DueInsideItsMonth` | backend/app/services/finance_service.py:552-580 | every planned charge is due in its month, not before the enrollment, and its sequence number finds that month |
| `Schedule.DueDatesIncrease` | backend/app/services/finance_service.py:552-580 | due dates strictly increase, even after the first is moved to the enrollment date |
| `Schedule.DefaultDayMeaning` | backend/app/services/finance_service.py:559 | a student without a payment day pays on the day of the month the course starts, the 28th at the latest |
| `Schedule.PlanMeaning` | backend/app/services/finance_service.py:552-580 | the plan has one charge of the price for each billed month, numbered from one, due on the first payment day of its month or on its last day; only the first is moved to the enrollment |
| `Schedule.PlanSchedule` | backend/app/services/finance_service.py:552-580 | the loop computes the specified plan |
| `Calendar.DateRoundTrip` | backend/app/services/finance_service.py:86-91 | day numbers and dates name the same days |
| `Calendar.MonthOfUnique` | backend/app/services/finance_service.py:146-148 | the accounting month of a day is the one month that contains it |
| `Calendar.YearStarts` | backend/app/services/finance_service.py:82-91 | every year starts 365 days after the last, and one more for every leap year before it: those four divides, unless a hundred does and four hundred does not |
| `Calendar.MonthsOfYear` | backend/app/services/finance_service.py:82-91 | the months of a year start on the days of the calendar, one later from March on in a leap year |
| `Calendar.LocalDayMeaning` | backend/app/services/finance_service.py:60-79 | a local day begins five hours before it does in UTC |
| `Calendar.AccountingMonth` | backend/app/services/finance_service.py:146-170 | the accounting month of an instant is the month it falls in on a clock five hours ahead of UTC |
| `Withdrawals.WithdrawEffect` | backend/app/services/finance_service.py:629-693 | exactly the months from that day on are cancelled and emptied, the wallet grows by the payment-funded part, the position falls by the rest less what concessions had covered |
| `Withdrawals.ReversalEntryIsExact` | backend/app/services/finance_service.py:676-693 | the reversing entry carries exactly what it reversed, all of it from cancelled charges |
| `Withdrawals.PreviewIsExact` | backend/app/services/enrollment_service.py:221-237 | what the preview calls still owed is what the enrollment owes after the withdrawal |
| `FinanceService.FinanceService.WithdrawalCalculation` | backend/app/services/finance_service.py:629-674 | the scan fails exactly when a charge has no month, otherwise lists the specified charges, allocations and totals |
| `FinanceService.FinanceService.PreviewWithdrawal` | backend/app/services/enrollment_service.py:221-237 | the reading method returns that amount for every actor and time of the withdrawal |
| `FinanceService.FinanceService.ReverseWithdrawalAllocations` | backend/app/services/finance_service.py:676-693 | the loop stamps exactly the listed rows with one entry of their total |
| `FinanceService.FinanceService.WithdrawStudent` | backend/app/services/enrollment_service.py:239-281 | a withdrawn enrollment is left alone, a missing actor is refused only when something must be released; otherwise ends in the tables whose balances `WithdrawEffect` gives |
| `Billing.EnrollEffect` | backend/app/services/enrollment_service.py:78-208 | enrolling bills every planned month once and nothing on a grant |
| `TuitionRules.EnrollRaises` | backend/app/services/enrollment_service.py:78-208 | an accepted enrollment raises one open tuition charge per month of its plan, on the student's own payment day or the default one, and none on a grant |
| `TuitionRules.GenerateRaises` | backend/app/services/finance_service.py:593-627 | generating raises the whole plan if and only if the enrollment is not on a grant and has no charge of any kind |
| `Billing.TuitionKeepsSchedule` | backend/app/services/finance_service.py:593-627 | raising months that are not billed keeps one live charge per month |
| `Billing.ResumeCovers` | backend/app/services/finance_service.py:730-749 | after a resume every planned month that starts after today has its live charge, and no earlier month gained one |
| `Billing.ResumeEffect` | backend/app/services/finance_service.py:730-749 | the debt grows by price times the months that were missing |
| `TuitionRules.ResumeRaises` | backend/app/services/finance_service.py:730-749 | going back to paid raises, in order, exactly the months of the plan that start after today and have no live charge |
| `Grants.ConvertEffect` | backend/app/services/finance_service.py:695-728 | of the months starting today or later, one that nothing was applied to ends cancelled and every other one settled in full; the entries and allocations written are one discount per month written off, of exactly what it needed; no other charge and no wallet changes, and the debt falls by what is cancelled and written off |
| `RoundTrips.RoundTripDebt` | backend/app/services/finance_service.py:695-749 | after conversion and resumption on one day each month, and the enrollment as a whole, owes what it owed but for a stated change: a month starting that day owes nothing, a later one its price if it had no charge, nothing if it was partly paid, and otherwise what it owed; wallets are as before |
| `RoundTrips.RoundTripRestores` | backend/app/services/finance_service.py:695-749 | every month owes what it owed before if and only if no month from today on is partly paid, no month that starts today is unpaid, and every later planned month had a charge |
| `RoundTrips.RoundTripRestoresDebt` | backend/app/services/finance_service.py:695-749 | when every later planned month had a charge, the enrollment's debt as a whole is restored under the same condition, and only then |
| `Witnesses.UnpaidMonthIsLost` | backend/app/services/finance_service.py:730-749 | for every month and price, a run after which the unpaid month that starts on the day of the round trip is owed no more |
| `Witnesses.WrittenOffMonthIsNotBilled` | backend/app/services/finance_service.py:711-749 | for every month, every day before it, price and partial payment, a run of requests of that day after which the rest of the month is owed no more |
| `Grants.WriteOffFailsOnlyOnClosedPeriod` | backend/app/services/finance_service.py:711-723 | a write-off inside the conversion is accepted whenever the month is open |
| `Grants.ModeChangeEffect` | backend/app/services/enrollment_billing_service.py:70-116 | a change of mode sets the mode of that enrollment only and changes the debt by exactly what it cancels, writes off or bills |
| `TuitionRules.ConversionReport` | backend/app/services/finance_service.py:695-728 | a conversion reports the number of the charges that became cancelled, the sum of their amounts, and the total of the discounts it wrote |
| `FinanceService.FinanceService.ConvertFutureChargesToGrant` | backend/app/services/finance_service.py:695-728 | the loop refines the specified steps, reports the exact counts and amounts, and rolls everything back when a write-off is refused |
| `FinanceService.FinanceService.ResumeBillingAfterGrant` | backend/app/services/finance_service.py:730-749 | the months it adds are exactly the planned ones after today without a live charge, and it reports their number |
| `FinanceService.FinanceService.GenerateSchedule` | backend/app/services/finance_service.py:593-627 | a grant or an enrollment with charges is left alone; otherwise one charge per planned month is added |
| `FinanceService.FinanceService.EnrollStudent` | backend/app/services/enrollment_service.py:78-208 | refused, in this order, for an inactive or missing course, an ended course, a price that is no money amount, an inactive student or a second enrollment; otherwise adds the enrollment and the charges `EnrollEffect` counts |
| `FinanceService.FinanceService.ChangeBillingMode` | backend/app/services/enrollment_billing_service.py:70-116 | refused for an inactive enrollment, an unchanged mode or a refused write-off, leaving everything as it was; a conversion reports the months and amounts it cancelled and wrote off, by which the debt falls, and a resumption the number of months it raised |
| `FinanceService.FinanceService.CloseAccountingPeriod` | backend/app/services/finance_service.py:1978-2011 | refused without the role; otherwise closes that month and no other |
| `FinanceService.FinanceService.ReopenAccountingPeriod` | backend/app/services/finance_service.py:2013-2044 | refused without the role or for a month never closed; otherwise opens that month and no other |
| `Reports.OwedBySums` | backend/app/services/finance_service.py:1414-1443 | for any choice of charges, two sums over two tables equal one sum of remainders |
| `Reports.OwedMeansOpen` | backend/app/services/finance_service.py:1414-1443 | where only live charges count, something is owed if and only if one of them is open |
| `Reports.GetStudentBalance` | backend/app/services/finance_service.py:1414-1462 | `net_receivable` is positive if and only if a due charge is open, and the days overdue are those of the oldest |
| `Reports.AgingBuckets` | backend/app/services/finance_service.py:1726-1769 | the buckets hold what is owed and at most 30, 31 to 60, 61 to 90 and more than 90 days overdue, and the four add up to billed less settled to date |
| `Reports.JoinGroups` | backend/app/services/finance_service.py:1719-1724 | the loop adds up the wallets of the students with credit, where a missing group counts as zero |
| `Reports.TotalOutstandingCredit` | backend/app/services/finance_service.py:1689-1724 | three grouped sums joined by student add up to the wallets of any list of all students |
| `Reports.ReceiptIsSound` | backend/app/services/finance_service.py:1918-1961 | `net_amount` stays between zero and the amount; the status is voided exactly when a void names the payment, and else says whether nothing, a part or all of it was refunded |
| `Journals.GenerateJournals` | backend/app/services/journal_generation_service.py:14-65 | the weekly and the monthly loop produce the specified periods |
| `Journals.JournalsTile` | backend/app/services/journal_generation_service.py:20-65 | the periods follow each other without gap or overlap from the first day to the last |
| `Journals.JournalPeriods` | backend/app/services/journal_generation_service.py:20-65 | a weekly journal has seven days unless it is the last, a monthly one lies in one calendar month, each the month after the one before |
| `Journals.OneJournal` | backend/app/services/journal_generation_service.py:20-65 | every day is in exactly one journal |
| `Journals.YearOneStartsOnMonday` | backend/app/core/schedule_utils.py:25-29 | the weekday of a day number is the weekday of its date |
| `Journals.LessonDatesAreTheDays` | backend/app/core/schedule_utils.py:25-29 | the lesson dates are the selected weekdays of the range, once each, in order |
| `Journals.PlanIsPartition` | backend/app/core/schedule_utils.py:64-70 | read journal by journal, the plan is the list of lesson dates |
| `Journals.EveryLessonOnce` | backend/app/core/schedule_utils.py:64-70 | so every lesson of a course is in exactly one journal's plan |
| `Journals.CreateCourse` | backend/app/services/course_service.py:44-106 | exactly the rows of a new course: the course, one per weekday, one per generated journal, and the history |
| `Journals.CopyCourse` | backend/app/services/course_service.py:289-317 | refused if and only if there are more than 100 students, 366 days or 20000 estimated rows, or an eligible student would join an ended course; otherwise creates exactly the rows of the course and of the copied students, no more than estimated, with every lesson for every copied student |
| `Journals.CopiedRowMembers` | backend/app/core/schedule_utils.py:64-70 | the rows of the copied students are exactly these, for every eligible one and nobody else: the enrollment, every lesson day in the journal of its period, a summary of each journal with its number of lessons, and the charges of the plan |
| `Journals.CopiedRowsFit` | backend/app/core/schedule_utils.py:39-57 | the rows per student never exceed the estimate per student |
| `Journals.EstimateIsExact` | backend/app/core/schedule_utils.py:41-57 | the estimate counts exactly the journals that are generated, and the budget is refused exactly beyond its three limits |
| `Journals.InstallmentsFit` | backend/app/core/schedule_utils.py:50-54 | there are never more installments than calendar months |
| `Lockout.LockoutKeys.ReserveLockout` | backend/app/core/rate_limiter.py:73-145 | allowed if and only if failures and reservations in flight are below the limit; then the id is in flight and counted unless it was already, and when refused the window is as it was; a refused caller is told to wait the full seconds until the window is over |
| `Lockout.LockoutKeys.CommitFailure` | backend/app/core/rate_limiter.py:147-180 | the failure script refines the window semantics |
| `Lockout.LockoutKeys.RecordFailure` | backend/app/core/rate_limiter.py:182-190 | so does its path without a reservation |
| `Lockout.LockoutKeys.CommitSuccess` | backend/app/core/rate_limiter.py:193-233 | the success script refines the window semantics |
| `Lockout.LockoutKeys.ClearKeys` | backend/app/core/rate_limiter.py:198-202 | a success without a reservation ends the window |
| `Lockout.LockoutKeys.ReleaseReservation` | backend/app/core/rate_limiter.py:235-273 | the release script refines the window semantics; its clamp at zero never fires |
| `Lockout.CounterIsFailuresPlusInFlight` | backend/app/core/rate_limiter.py:73-273 | under any interleaving the counter is the failures committed since the last success of the window plus the reservations in flight |
| `Lockout.InFlightAreTheReserved` | backend/app/core/rate_limiter.py:99-132 | over any run, an id is in flight if and only if it was admitted since the window opened and nothing has finished it |
| `Lockout.NoEmptyWindow` | backend/app/core/rate_limiter.py:73-273 | with a limit of at least one no window stays behind empty |
| `Lockout.ReservationsStayWithinLimit` | backend/app/core/rate_limiter.py:81-132 | with reservations only, a window never holds more than the limit |
| `Lockout.OnlyUnreservedFailuresExceed` | backend/app/core/rate_limiter.py:182-190 | a step passes the limit if and only if it is an unreserved failure in a full window |
| `Lockout.UnreservedFailuresPassTheLimit` | backend/app/core/rate_limiter.py:182-190 | a run that does |
| `Lockout.FinishedAtMostOnce` | backend/app/core/rate_limiter.py:153-162 | two calls that both finish a reservation have a new reservation of it between them |
| `Lockout.LeftoversChangeNothing` | backend/app/core/rate_limiter.py:153-162 | a reservation left over from an expired window changes no later window |
| `Lockout.DeadlineIsFixedAtOpening` | backend/app/core/rate_limiter.py:111-121 | the deadline is one span after opening, plus one span for each call that renewed in the last millisecond |
| `Lockout.NotPushedBack` | backend/app/core/rate_limiter.py:111-121 | it is never pushed back if and only if no call renewed |
| `Lockout.LastMillisecondPushesBack` | backend/app/core/rate_limiter.py:165-168 | a run in which a failure in the last millisecond does push it back |
| `Lockout.LockoutReservation.CommitFailure` | backend/app/core/rate_limiter.py:303-313 | a reservation that was committed changes nothing again |
| `Merging.RebaseIsNext` | backend/app/services/finance_service.py:755-1121 | what a payment or an allocation of course credit writes on the tables it read is, moved behind what other students' requests committed meanwhile, what it would have written after them, and it is accepted in both places or in neither |
| `Merging.OthersUnaffected` | backend/app/services/finance_service.py:755-1121 | such a request leaves the charges, the entries and the allocations of every other student as they were |
| `Idempotency.TablesAreARun` | backend/app/services/payment_idempotency_service.py:67-112 | under any interleaving the committed tables are those after the accepted mutations of the stored results, one per result in commit order, and of nothing else |
| `Idempotency.EachResultIsOneEntry` | backend/app/services/payment_idempotency_service.py:67-112 | under any interleaving the ledger entries are those there were and exactly one payment per stored payment, in commit order, with the student, amount, date and recorder of its request |
| `Idempotency.LosersWroteAndRestored` | backend/app/services/payment_idempotency_service.py:74-88 | an attempt the index turns down had made its whole mutation inside the savepoint; restored, and in every decided attempt, it sees the committed tables |
| `Idempotency.AllocationMovesWhatWasAsked` | backend/app/services/credit_allocation_idempotency_service.py:28-45 | what an allocation writes moves the amount of its request off its student's wallet and off the debt of its enrollment |
| `Idempotency.WritingFollowsTheLedger` | backend/app/services/payment_idempotency_service.py:74-81 | a request whose key is unused gets the ledger's own answer on the committed tables: its error, or its mutation made inside the savepoint and seen by nobody else |
| `Idempotency.RaceIsLost` | backend/app/services/payment_idempotency_service.py:78-87 | two requests of one kind, recorder and key for two students: a run in which the second writes and is then turned down by the index |
| `Idempotency.KindsDoNotCollide` | backend/app/models/credit_allocation_idempotency.py:9 | a payment and an allocation of one recorder with one key have separate indexes: a run in which both are recorded, each with its own result, and both mutations are in the tables |
| `Idempotency.OneResultPerKey` | backend/app/services/payment_idempotency_service.py:67-112 | at most one committed payment per recorder and key, and at most one committed allocation, whatever students were locked |
| `Idempotency.EverySuccessTellsTheSame` | backend/app/services/credit_allocation_idempotency_service.py:20-53 | every success of requests of one kind for a key returns that one result |
| `Idempotency.OnlyRecordersLeaveRows` | backend/app/services/credit_allocation_idempotency_service.py:28-45 | an attempt stores a result exactly when it told its caller that it recorded one |
| `Idempotency.ReplayIsTheSameRequest` | backend/app/services/payment_idempotency_service.py:101-112 | a replay repeats a result recorded when the same was asked for: the same student, amount, date, method, comment and targets in any order, or the same allocation |
| `Idempotency.LookingUpDecides` | backend/app/services/payment_idempotency_service.py:70-75 | a request whose key is stored is told the stored result if the same is asked for and is turned down as a mismatch otherwise; one whose key is not stored goes on |
| `Idempotency.LegacyResultIsReplayed` | backend/app/services/payment_idempotency_service.py:69-112 | a result stored under a fingerprint without targets is replayed to a request that names its course and agrees in everything else, and to no other |
| `Idempotency.LosersFindTheirWinner` | backend/app/services/payment_idempotency_service.py:78-87 | the loser of the unique index always finds the winner, and only attempts on different students lose that way |
| `PeriodLocks.ClosedMonthsDoNotGrow` | backend/app/services/finance_service.py:150-183 | under any interleaving of transactions that make accepted payments, discounts, adjustments, voids and refunds, the ledger entries dated in a month stay the same while it stays closed |
| `PeriodLocks.UncommittedMonthsAreOpen` | backend/app/services/finance_service.py:1988-2003 | an uncommitted ledger entry is in a month that is open and that no running transaction is closing or reopening |
| `PeriodLocks.BothMonthsStayOpen` | backend/app/services/finance_service.py:158-180 | from the moment a void or refund is recorded until its transaction ends, its own month and the month of the payment it takes back stay open |
| `PeriodLocks.RefusedNeverCommits` | backend/app/services/finance_service.py:158-180 | a transaction whose request is turned down never acts again, and nothing it recorded is committed |
| `PeriodLocks.ClosingWaitsForTheWriter` | backend/app/services/finance_service.py:150-183 | a run in which closing a month waits for a transaction that writes to it and then takes effect with the entry in place |
| `AnalyticsLease.PublishesOnlyWhileHolding` | backend/app/services/analytics_cache_service.py:73-101 | a publish succeeds only for a worker that has held the lease without interruption since it acquired it |
| `AnalyticsLease.NeverOverwritesAServedValue` | backend/app/services/analytics_cache_service.py:84-96 | a publish never replaces a value that is being served |
| `AnalyticsLease.OnlyPublishingCaches` | backend/app/services/analytics_cache_service.py:24-25 | nothing but an owner's publish changes the cache |
| `AnalyticsLease.LoneWorkerPublishes` | backend/app/services/analytics_cache_service.py:73-96 | a worker alone takes the lease, computes and publishes; the value is served for ten minutes and the lease lasts its span |
| `AnalyticsLease.OnlyOwnerOrTimeEndsALease` | backend/app/services/analytics_cache_service.py:24-25 | a lease ends by time or by its owner's release only; asking for it while it is held changes nothing |

## Left out

- SQLAlchemy sessions, audit rows, response texts, pagination and joins for display: a
  request is one step on the tables, a raised exception leaves them as they were.
- Row locks of students inside the ledger: a mutation is one atomic step. Interleaving is
  modelled in `Idempotency` and `PeriodLocks` only; deadlocks are not modelled.
- Soft deletion: no mutation of the ledger deletes a charge or an enrollment, and course
  dates do not change once charges exist.
- Ids: rows are numbered from zero, so the source's filter that drops a missing charge id
  has nothing to drop. Queries without an order are read in id order.
- Columns the balances do not depend on: payment method, comments, reason codes, colours.
  A billing mode that is not set counts as paid.
- Column widths other than that of request amounts: the total a withdrawal reverses is not
  bounded. Years after 9999 are not excluded.
- The window check on payment dates before an idempotent payment: it is not part of this
  model.
- `DebtQuery` and the report figures that use it: not part of this model.
- The rate-limit and cooldown scripts: a plain counter and a plain key beside the lockout
  protocol.
- Failures of Redis inside a lockout script: a script runs as a whole or not at all.
- The commit order of ledger writes and cache generations: not part of this model.
- Hashes: a fingerprint is the list of values it is the hash of. Results an older version
  stored under fingerprints without targets are not among the rows the protocol starts from.
- `open_debt` and `overdue_days` in the payment options, and `preview_enrollment`: direct
  readings of the plan and of the charges.
- FinanceService.FinanceService.EnrollStudent: the journal rows of an enrollment are in
  `Journals`, not in the ledger's tables; whether the course and the student are active
  are parameters.
- Lockout.LockoutKeys.ReserveLockout: the wait announced to an accepted caller is not
  specified, because the source does not use it.
- Idempotency.TablesAreARun: only payments and course-credit allocations run side by
  side; requests of other kinds in between are not modelled, and rows are numbered in
  commit order, while a result keeps the id it was given inside the savepoint.
- Naive datetimes: every instant is UTC. The source takes the month of a date without a
  time zone as it stands, so a discount or an adjustment sent with such a date is checked
  against that month, which can differ from the local month of the stored instant.
- PeriodLocks.ClosedMonthsDoNotGrow: a transaction sees any tables that agree with the
  committed months on those it checks; withdrawals, whose date is not checked, and grant
  conversions as a whole are not among its requests.
