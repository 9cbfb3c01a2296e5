/**
 The proleptic Gregorian calendar as the ledger uses it.

 A month is numbered 12 * year + (month - 1), a date is a month number and a day of
 that month, and a day number counts days from the first of month 0.  Instants are
 seconds on the same scale, in UTC.
 */
module Calendar {
  import opened Arithmetic

  datatype Date = Date(month: nat, day: nat)

  predicate Leap(year: nat) {
    year % 4 == 0 && (year % 100 != 0 || year % 400 == 0)
  }

  function MonthDays(month: nat): (days: nat)
    ensures 28 <= days <= 31
  {
    var m := month % 12;
    if m == 1 then (if Leap(month / 12) then 29 else 28)
    else if m == 3 || m == 5 || m == 8 || m == 10 then 30
    else 31
  }

  /** The day number of the first of the month. */
  function MonthStart(month: nat): nat {
    if month == 0 then 0 else MonthStart(month - 1) + MonthDays(month - 1)
  }

  predicate ValidDate(d: Date) {
    1 <= d.day <= MonthDays(d.month)
  }

  function DayNumber(d: Date): int {
    MonthStart(d.month) + d.day - 1
  }

  function MonthFrom(day: nat, month: nat): nat
    requires MonthStart(month) <= day
    decreases day - MonthStart(month)
  {
    if day < MonthStart(month + 1) then month else MonthFrom(day, month + 1)
  }

  /** The month a day lies in. */
  function MonthOf(day: nat): nat {
    MonthFrom(day, 0)
  }

  function DateOf(day: nat): Date {
    var month := MonthOf(day);
    Date(month, Max(0, day - MonthStart(month)) + 1)
  }

  /** Asia/Dushanbe is UTC+5 all year. */
  const DUSHANBE_OFFSET := 5 * 3600

  const DAY_SECONDS := 24 * 3600

  /** The local calendar day of an instant. */
  function LocalDay(instant: nat): nat {
    (instant + DUSHANBE_OFFSET) / DAY_SECONDS
  }

  /** The accounting month of an instant. */
  function PeriodKey(instant: nat): nat {
    MonthOf(LocalDay(instant))
  }

  lemma {:induction false} MonthStartIncreases(m: nat, k: nat)
    requires m < k
    ensures MonthStart(m) + MonthDays(m) <= MonthStart(k)
  {
    if m < k - 1 {
      MonthStartIncreases(m, k - 1);
    }
  }

  lemma {:induction false} MonthFromBrackets(day: nat, month: nat)
    requires MonthStart(month) <= day
    ensures var m := MonthFrom(day, month); MonthStart(m) <= day < MonthStart(m + 1)
    decreases day - MonthStart(month)
  {
    if MonthStart(month + 1) <= day {
      MonthFromBrackets(day, month + 1);
    }
  }

  /** The month of a day is the one month that contains it. */
  lemma MonthOfUnique(day: nat, month: nat)
    ensures MonthStart(MonthOf(day)) <= day < MonthStart(MonthOf(day) + 1)
    ensures MonthStart(month) <= day < MonthStart(month) + MonthDays(month) ==> MonthOf(day) == month
  {
    hide MonthDays;
    MonthFromBrackets(day, 0);
    var m := MonthOf(day);
    if m < month { MonthStartIncreases(m, month); }
    if month < m { MonthStartIncreases(month, m); }
  }

  /** Day numbers and dates name the same days. */
  lemma DateRoundTrip(d: Date, day: nat)
    ensures ValidDate(DateOf(day)) && DayNumber(DateOf(day)) == day
    ensures ValidDate(d) ==> 0 <= DayNumber(d) && DateOf(DayNumber(d)) == d
  {
    hide MonthDays;
    MonthOfUnique(day, 0);
    if ValidDate(d) { MonthOfUnique(DayNumber(d), d.month); }
  }

  /** The days of a common year before each of its months and its end. */
  function DaysBefore(m: nat): nat
    requires m <= 12
  {
    if m < 6 then [0, 31, 59, 90, 120, 151][m] else [181, 212, 243, 273, 304, 334, 365][m - 6]
  }

  lemma MonthOfYear(year: nat, m: nat)
    requires m < 12
    ensures MonthDays(12 * year + m) == DaysBefore(m + 1) - DaysBefore(m) + (if m == 1 && Leap(year) then 1 else 0)
  {
    assert (12 * year + m) % 12 == m && (12 * year + m) / 12 == year;
  }

  /** The months of a year: only February depends on the leap year. */
  lemma {:induction false} MonthsOfYear(year: nat, m: nat)
    requires m <= 12
    ensures MonthStart(12 * year + m)
      == MonthStart(12 * year) + DaysBefore(m) + (if 2 <= m && Leap(year) then 1 else 0)
  {
    hide Leap, MonthDays, DaysBefore;
    assert DaysBefore(0) == 0 by { MonthsBegin(); }
    if 0 < m {
      MonthsOfYear(year, m - 1);
      MonthOfYear(year, m - 1);
    }
  }

  lemma MonthsBegin()
    ensures DaysBefore(0) == 0 && DaysBefore(12) == 365
  {
  }

  lemma Fours(year: nat)
    ensures (year + 4) / 4 == (year + 3) / 4 + (if year % 4 == 0 then 1 else 0)
  {
    var q, r := year / 4, year % 4;
    assert year + 4 == 4 * (q + 1) + r;
    assert year + 3 == if r == 0 then 4 * q + 3 else 4 * (q + 1) + (r - 1);
  }

  lemma Hundreds(year: nat)
    ensures (year + 100) / 100 == (year + 99) / 100 + (if year % 100 == 0 then 1 else 0)
  {
    var q, r := year / 100, year % 100;
    assert year + 100 == 100 * (q + 1) + r;
    assert year + 99 == if r == 0 then 100 * q + 99 else 100 * (q + 1) + (r - 1);
  }

  lemma FourHundreds(year: nat)
    ensures (year + 400) / 400 == (year + 399) / 400 + (if year % 400 == 0 then 1 else 0)
  {
    var q, r := year / 400, year % 400;
    assert year + 400 == 400 * (q + 1) + r;
    assert year + 399 == if r == 0 then 400 * q + 399 else 400 * (q + 1) + (r - 1);
  }

  lemma Divisors(year: nat)
    ensures year % 400 == 0 ==> year % 100 == 0
    ensures year % 100 == 0 ==> year % 4 == 0
  {
    if year % 400 == 0 { assert year == 100 * (4 * (year / 400)); }
    if year % 100 == 0 { assert year == 4 * (25 * (year / 100)); }
  }

  /** A year has a 29th of February when four divides it, unless a hundred does and four
      hundred does not: 97 times in 400 years. */
  lemma {:induction false} YearStarts(year: nat)
    ensures MonthStart(12 * year) == 365 * year + (year + 3) / 4 - (year + 99) / 100 + (year + 399) / 400
  {
    hide MonthStart, MonthDays, DaysBefore;
    if year == 0 {
      FirstDay();
    } else {
      YearStarts(year - 1);
      MonthsOfYear(year - 1, 12);
      MonthsBegin();
      Fours(year - 1);
      Hundreds(year - 1);
      FourHundreds(year - 1);
      Divisors(year - 1);
    }
  }

  lemma FirstDay()
    ensures MonthStart(0) == 0
  {
  }

  /** A local day begins five hours before it does in UTC. */
  lemma LocalDayMeaning(instant: nat, day: nat)
    ensures LocalDay(instant) == day <==> 24 * 3600 * day <= instant + 5 * 3600 < 24 * 3600 * (day + 1)
  {
  }

  /** The accounting month of an instant is the month it falls in on the clock of the centre. */
  lemma AccountingMonth(instant: nat, month: nat)
    ensures PeriodKey(instant) == month <==>
      24 * 3600 * MonthStart(month) <= instant + 5 * 3600 < 24 * 3600 * MonthStart(month + 1)
  {
    hide MonthDays, LocalDay;
    var day := LocalDay(instant);
    LocalDayMeaning(instant, day);
    MonthOfUnique(day, month);
    assert MonthStart(month + 1) == MonthStart(month) + MonthDays(month);
  }

  /** Comparing day numbers is comparing (month, day) pairs. */
  lemma DayOrder(c: Date, d: Date)
    requires ValidDate(c) && ValidDate(d)
    ensures DayNumber(c) < DayNumber(d) <==> c.month < d.month || (c.month == d.month && c.day < d.day)
  {
    if c.month < d.month { MonthStartIncreases(c.month, d.month); }
    if d.month < c.month { MonthStartIncreases(d.month, c.month); }
  }
}
