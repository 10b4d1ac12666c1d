/** Due dates of a loan (server/internal/loan/service.go, advanceMonths and daysInPeriod). */
module Calendar {

  /** A date at midnight UTC. */
  datatype Date = Date(year: int, month: int, day: int)

  predicate ValidDate(d: Date) {
    d.year >= 1 && 1 <= d.month <= 12 && 1 <= d.day <= DaysInMonth(MonthIndex(d))
  }

  /** Months counted from January of year 0. */
  function MonthIndex(d: Date): int {
    12 * d.year + d.month - 1
  }

  predicate IsLeap(year: int) {
    year % 4 == 0 && (year % 100 != 0 || year % 400 == 0)
  }

  function DaysInMonth(k: int): (n: int)
    ensures 28 <= n <= 31
  {
    var m := k % 12 + 1;
    if m == 2 then (if IsLeap(k / 12) then 29 else 28)
    else if m == 4 || m == 6 || m == 9 || m == 11 then 30
    else 31
  }

  /** Number of days before month k: months follow one another without gaps. */
  function MonthStart(k: nat): int {
    if k == 0 then 0 else MonthStart(k - 1) + DaysInMonth(k - 1)
  }

  function DayNumber(d: Date): int
    requires ValidDate(d)
  {
    MonthStart(MonthIndex(d)) + d.day - 1
  }

  function DaysInPeriod(from: Date, to: Date): int
    requires ValidDate(from) && ValidDate(to)
  {
    DayNumber(to) - DayNumber(from)
  }

  function FirstOfMonth(d: Date): Date {
    d.(day := 1)
  }

  function ClampedDay(k: int, day: int): int {
    if day > DaysInMonth(k) then DaysInMonth(k) else day
  }

  /** The month of payment number offset + 1. */
  function DueMonth(start: Date, offset: int, day: int): int {
    MonthIndex(start) + offset + (if start.day >= day then 1 else 0)
  }

  function DueDate(start: Date, offset: int, day: int): (due: Date)
    requires ValidDate(start) && day >= 1 && DueMonth(start, offset, day) >= 12
    ensures ValidDate(due) && MonthIndex(due) == DueMonth(start, offset, day)
  {
    var k := DueMonth(start, offset, day);
    Date(k / 12, k % 12 + 1, ClampedDay(k, day))
  }

  /** The offset may be negative, as long as the result stays after year 0. */
  method AdvanceMonths(startDate: Date, monthOffset: int, paymentDay: int) returns (due: Date)
    requires ValidDate(startDate) && paymentDay >= 1 && DueMonth(startDate, monthOffset, paymentDay) >= 12
    ensures due == DueDate(startDate, monthOffset, paymentDay)
  {
    var y := startDate.year;
    var m := startDate.month + monthOffset;
    if startDate.day >= paymentDay {
      m := m + 1;
    }
    ghost var k := DueMonth(startDate, monthOffset, paymentDay);
    while m > 12
      invariant 12 * y + m - 1 == k
    {
      y := y + 1;
      m := m - 12;
    }
    while m < 1
      invariant m <= 12 && 12 * y + m - 1 == k
    {
      y := y - 1;
      m := m + 12;
    }
    var day := paymentDay;
    var maxDay := DaysInMonth(12 * y + m - 1);
    if day > maxDay {
      day := maxDay;
    }
    due := Date(y, m, day);
  }

  lemma DueDayNumber(start: Date, i: nat, day: int)
    requires ValidDate(start) && day >= 1
    ensures DueMonth(start, i, day) >= 12
    ensures DayNumber(DueDate(start, i, day)) ==
            MonthStart(DueMonth(start, i, day)) + ClampedDay(DueMonth(start, i, day), day) - 1
  {}

  /** Consecutive due dates are one calendar month apart: 28 to 31 days, whatever the payment day. */
  lemma DueGap(start: Date, i: nat, day: int)
    requires ValidDate(start) && day >= 1
    ensures 28 <= DaysInPeriod(DueDate(start, i, day), DueDate(start, i + 1, day)) <= 31
  {
    hide DueDate, DaysInMonth;
    DueDayNumber(start, i, day);
    DueDayNumber(start, i + 1, day);
    var k := DueMonth(start, i, day);
    assert MonthStart(k + 1) == MonthStart(k) + DaysInMonth(k);
  }

  /** Hence due dates strictly increase, by at least 28 days a month. */
  lemma {:induction false} DueDatesIncrease(start: Date, i: nat, j: nat, day: int)
    requires ValidDate(start) && day >= 1 && i <= j
    ensures 28 * (j - i) <= DaysInPeriod(DueDate(start, i, day), DueDate(start, j, day)) <= 31 * (j - i)
  {
    hide DueDate, DueMonth, ValidDate;
    if i < j {
      DueDatesIncrease(start, i, j - 1, day);
      DueGap(start, j - 1, day);
    }
  }

  /** The first period is empty, so that the 30-day fallback of the schedule generator is taken,
      exactly when the loan starts on the last day of a month too short for its payment day. */
  lemma FirstPeriodEmpty(start: Date, day: int)
    requires ValidDate(start) && day >= 1
    ensures DaysInPeriod(start, DueDate(start, 0, day)) >= 0
    ensures DaysInPeriod(start, DueDate(start, 0, day)) == 0 <==>
            start.day < day && start.day == DaysInMonth(MonthIndex(start))
    ensures day <= 28 ==> DaysInPeriod(start, DueDate(start, 0, day)) > 0
    ensures PeriodDays(start, 0, day)
            == (if start.day < day && start.day == DaysInMonth(MonthIndex(start)) then 30
                else DaysInPeriod(start, DueDate(start, 0, day)))
  {
    hide DueDate, DaysInMonth;
    DueDayNumber(start, 0, day);
    var k := MonthIndex(start);
    assert MonthStart(k + 1) == MonthStart(k) + DaysInMonth(k);
  }

  /** Start of period i: the loan's start date, then the previous due date. */
  function PeriodStart(start: Date, i: nat, day: int): (d: Date)
    requires ValidDate(start) && day >= 1
    ensures ValidDate(d)
  {
    if i == 0 then start else DueDate(start, i - 1, day)
  }

  /** The day count the generators use, with its fallback. */
  function PeriodDays(start: Date, i: nat, day: int): int
    requires ValidDate(start) && day >= 1
  {
    var days := DaysInPeriod(PeriodStart(start, i, day), DueDate(start, i, day));
    if days <= 0 then 30 else days
  }

  function TotalDays(start: Date, n: nat, day: int): int
    requires ValidDate(start) && day >= 1
  {
    if n == 0 then 0 else TotalDays(start, n - 1, day) + PeriodDays(start, n - 1, day)
  }

  lemma FallbackUnreachable(start: Date, i: nat, day: int)
    requires ValidDate(start) && 1 <= day <= 28
    ensures PeriodDays(start, i, day) == DaysInPeriod(PeriodStart(start, i, day), DueDate(start, i, day)) > 0
  {
    if i == 0 {
      FirstPeriodEmpty(start, day);
    } else {
      DueGap(start, i - 1, day);
    }
  }

  /** Day counts telescope from the start date to the last due date. */
  lemma {:induction false} DaysTelescope(start: Date, n: nat, day: int)
    requires ValidDate(start) && 1 <= day <= 28
    ensures TotalDays(start, n, day) == DaysInPeriod(start, PeriodStart(start, n, day))
  {
    hide DueDate, DueMonth, ValidDate;
    if n > 0 {
      DaysTelescope(start, n - 1, day);
      FallbackUnreachable(start, n - 1, day);
    }
  }

  /** A schedule regenerated from the first of the month of old payment j keeps every later due date
      if and only if the payment day is not the first; payment day 1 moves each of them one month on. */
  lemma RegeneratedDueDate(start: Date, j: nat, i: nat, day: int)
    requires ValidDate(start) && day >= 1
    ensures var again := DueDate(FirstOfMonth(DueDate(start, j, day)), i, day);
            && again == DueDate(start, j + i + (if day == 1 then 1 else 0), day)
            && (again == DueDate(start, j + i, day) <==> day >= 2)
  {}

  lemma NextMonthStart(k: nat)
    ensures MonthStart(k + 1) == MonthStart(k) + DaysInMonth(k)
  {}

  lemma {:induction false} MonthStartGrows(j: nat, k: nat)
    requires j <= k
    ensures MonthStart(j) + 28 * (k - j) <= MonthStart(k)
  {
    hide DaysInMonth;
    if j < k {
      MonthStartGrows(j, k - 1);
      NextMonthStart(k - 1);
    }
  }

  lemma DayWithinMonth(d: Date)
    requires ValidDate(d)
    ensures MonthStart(MonthIndex(d)) <= DayNumber(d) < MonthStart(MonthIndex(d) + 1)
  {
    hide DaysInMonth;
    NextMonthStart(MonthIndex(d));
  }

  /** The first due date is the first date after the start that falls on the payment day; payment i follows it by i
      months. */
  lemma FirstDueIsNext(start: Date, day: int, d: Date)
    requires ValidDate(start) && 1 <= day <= 28 && ValidDate(d) && d.day == day && DaysInPeriod(start, d) > 0
    ensures var due := DueDate(start, 0, day);
            due.day == day && DaysInPeriod(start, due) > 0 && DaysInPeriod(due, d) >= 0
  {
    hide DaysInMonth, MonthStart;
    var due, m := DueDate(start, 0, day), MonthIndex(d);
    FirstPeriodEmpty(start, day);
    DayWithinMonth(start);
    DayWithinMonth(d);
    if m < MonthIndex(due) {
      MonthStartGrows(m + 1, MonthIndex(due));
      if m < MonthIndex(start) {
        MonthStartGrows(m + 1, MonthIndex(start));
      }
    } else {
      MonthStartGrows(MonthIndex(due), m);
    }
  }

  lemma DueMonthly(start: Date, i: nat, day: int)
    requires ValidDate(start) && 1 <= day <= 28
    ensures var first, due := DueDate(start, 0, day), DueDate(start, i, day);
            MonthIndex(due) == MonthIndex(first) + i && due.day == day
  {}

  /** Days of a common year before each month. */
  const BEFORE: seq<int> := [0, 31, 59, 90, 120, 151, 181, 212, 243, 273, 304, 334, 365]

  lemma LengthInYear(y: nat, m: nat)
    requires m < 12
    ensures DaysInMonth(12 * y + m) == BEFORE[m + 1] - BEFORE[m] + (if m == 1 && IsLeap(y) then 1 else 0)
  {
    assert (12 * y + m) % 12 == m && (12 * y + m) / 12 == y;
    hide IsLeap;
  }

  lemma {:induction false} MonthInYear(y: nat, m: nat)
    requires m <= 12
    ensures MonthStart(12 * y + m) == MonthStart(12 * y) + BEFORE[m] + (if m > 1 && IsLeap(y) then 1 else 0)
  {
    hide DaysInMonth, IsLeap, MonthStart;
    if m > 0 {
      MonthInYear(y, m - 1);
      LengthInYear(y, m - 1);
      NextMonthStart(12 * y + m - 1);
    }
  }

  /** A leap day every fourth year, but not in 1900, and in 2000. */
  lemma LeapYears()
    ensures DaysInMonth(12 * 2024 + 1) == DaysInMonth(12 * 2000 + 1) == 29
    ensures DaysInMonth(12 * 2023 + 1) == DaysInMonth(12 * 1900 + 1) == 28
  {}
}
