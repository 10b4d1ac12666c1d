/** What becomes of interest when a schedule is regenerated (server/internal/loan/prepayment.go): the new one counts
    from the first of the next due month, whatever had accrued before. */
module LoanInterest {
  import opened Money
  import opened Calendar
  import opened Schedule
  import opened Amortization
  import opened LoanTables
  import opened LoanLifecycle
  import opened LoanRuns
  import opened LoanCalendar
  import opened LoanConditions
  import opened Wrappers

  // ---------------------------------------------------------------- days

  /** The day a schedule regenerated before payment j counts from. */
  function CountsFrom(start: Date, j: nat, day: int): (d: Date)
    requires ValidDate(start) && day >= 1
    ensures ValidDate(d)
  {
    DueMonthLater(start, j, day);
    FirstOfMonth(DueDate(start, j, day))
  }

  lemma DueMonthLater(start: Date, j: nat, day: int)
    requires ValidDate(start) && day >= 1
    ensures DueMonth(start, j, day) >= 12
  {}

  /** Regenerated with a payment day from 2 to 28, the first period has day - 1 days and every later one the days it
      had; so what is not counted is the time from the start of the current period to the first of the due month. */
  lemma DaysDropped(start: Date, j: nat, day: int)
    requires ValidDate(start) && 2 <= day <= 28
    ensures var again := CountsFrom(start, j, day);
            && PeriodDays(again, 0, day) == day - 1
            && (forall i: nat :: i > 0 ==> PeriodDays(again, i, day) == PeriodDays(start, j + i, day))
            && PeriodDays(start, j, day) - (day - 1) == DaysInPeriod(PeriodStart(start, j, day), again)
  {
    hide DueDate, DaysInMonth, ValidDate;
    var again := CountsFrom(start, j, day);
    FallbackUnreachable(start, j, day);
    FirstPeriodFromFirst(start, j, day);
    forall i: nat | i > 0
      ensures PeriodDays(again, i, day) == PeriodDays(start, j + i, day)
    {
      RegeneratedDueDate(start, j, i, day);
      RegeneratedDueDate(start, j, i - 1, day);
    }
  }

  /** With payment day 1 every period is counted as the one after it, and the current one is dropped whole. */
  lemma DaysDroppedOnFirst(start: Date, j: nat)
    requires ValidDate(start)
    ensures var again := CountsFrom(start, j, 1);
            && again == DueDate(start, j, 1)
            && (forall i: nat :: PeriodDays(again, i, 1) == PeriodDays(start, j + 1 + i, 1))
            && PeriodDays(start, j, 1) == DaysInPeriod(PeriodStart(start, j, 1), again)
  {
    hide DueDate, DueMonth, DaysInMonth, ValidDate, DaysInPeriod, CountsFrom, PeriodDays;
    FirstIsDue(start, j);
    FirstPeriodIs(start, j);
    forall i: nat
      ensures PeriodDays(CountsFrom(start, j, 1), i, 1) == PeriodDays(start, j + 1 + i, 1)
    {
      OneMonthOn(start, j, i);
    }
  }

  lemma FirstIsDue(start: Date, j: nat)
    requires ValidDate(start)
    ensures DueMonth(start, j, 1) >= 12 && CountsFrom(start, j, 1) == DueDate(start, j, 1)
  {}

  lemma FirstPeriodIs(start: Date, j: nat)
    requires ValidDate(start)
    ensures DueMonth(start, j, 1) >= 12
    ensures PeriodDays(start, j, 1) == DaysInPeriod(PeriodStart(start, j, 1), DueDate(start, j, 1))
  {
    hide DueDate, DaysInMonth, DaysInPeriod, PeriodDays;
    DueMonthLater(start, j, 1);
    FallbackUnreachable(start, j, 1);
  }

  lemma OneMonthOn(start: Date, j: nat, i: nat)
    requires ValidDate(start)
    ensures PeriodDays(CountsFrom(start, j, 1), i, 1) == PeriodDays(start, j + 1 + i, 1)
  {
    hide DueDate, DueMonth, DaysInMonth, ValidDate, DaysInPeriod, CountsFrom;
    FirstIsDue(start, j);
    FirstShifted(start, j, i);
    if i > 0 {
      FirstShifted(start, j, i - 1);
    }
  }

  lemma FirstShifted(start: Date, j: nat, i: nat)
    requires ValidDate(start)
    ensures DueMonth(CountsFrom(start, j, 1), i, 1) >= 12 && DueMonth(start, j + 1 + i, 1) >= 12
    ensures DueDate(CountsFrom(start, j, 1), i, 1) == DueDate(start, j + 1 + i, 1)
  {
    hide DueDate, DaysInMonth, ValidDate;
    DueMonthLater(CountsFrom(start, j, 1), i, 1);
    DueMonthLater(start, j + 1 + i, 1);
    RegeneratedDueDate(start, j, i, 1);
  }

  lemma FirstPeriodFromFirst(start: Date, j: nat, day: int)
    requires ValidDate(start) && 2 <= day <= 28
    ensures DueDate(CountsFrom(start, j, day), 0, day) == DueDate(start, j, day)
    ensures DaysInPeriod(CountsFrom(start, j, day), DueDate(start, j, day)) == day - 1
  {
    hide DueDate, DueMonth, DaysInMonth, ValidDate, MonthStart, CountsFrom;
    CountsFromIs(start, j, day);
    DueDayNumber(start, j, day);
    FirstIsItself(start, j, day);
  }

  lemma FirstIsItself(start: Date, j: nat, day: int)
    requires ValidDate(start) && 2 <= day
    ensures DueDate(CountsFrom(start, j, day), 0, day) == DueDate(start, j, day)
  {
    hide DueDate, DueMonth, DaysInMonth, ValidDate, MonthStart;
    RegeneratedDueDate(start, j, 0, day);
  }

  lemma CountsFromIs(start: Date, j: nat, day: int)
    requires ValidDate(start) && day >= 1
    ensures DueMonth(start, j, day) >= 12
    ensures DayNumber(CountsFrom(start, j, day)) == MonthStart(DueMonth(start, j, day))
  {
    hide DueMonth, DueDate, MonthStart, DaysInMonth, ValidDate;
    DueMonthLater(start, j, day);
    var due := DueDate(start, j, day);
    assert MonthIndex(FirstOfMonth(due)) == MonthIndex(due);
  }


  /** Days are lost after the first payment, and before it if the first due date lies in a later month than the start;
      otherwise the days of the month before the start are counted too. */
  lemma DroppedOrAdded(start: Date, j: nat, day: int)
    requires ValidDate(start) && 1 <= day <= 28
    ensures var dropped := DaysInPeriod(PeriodStart(start, j, day), CountsFrom(start, j, day));
            && (j > 0 || start.day >= day ==> dropped >= 1)
            && (j == 0 && start.day < day ==> dropped == 1 - start.day)
  {
    hide DaysInMonth, DueDate, MonthStart, ValidDate, CountsFrom;
    CountsFromIs(start, j, day);
    if j > 0 {
      DueDayNumber(start, j - 1, day);
      NextMonthStart(DueMonth(start, j - 1, day));
    } else if start.day >= day {
      StartsBeforeNext(start);
    }
  }

  lemma StartsBeforeNext(start: Date)
    requires ValidDate(start)
    ensures DayNumber(start) < MonthStart(MonthIndex(start) + 1)
  {
    hide DaysInMonth, MonthStart;
    NextMonthStart(MonthIndex(start));
  }

  // ---------------------------------------------------------------- books whose first rows were paid

  /** A book of the loan's own schedule with its first k rows paid. */
  ghost predicate PaidUp(b: Book, t: Terms, k: nat)
    requires Acceptable(t) && ValidDate(t.start) && k <= t.months
  {
    && Valid(b)
    && Items(b.rows) == Amortise(t)
    && b.loan == Created(t).loan.(paidMonths := k, remaining := OwedAfter(t, k))
  }

  function OwedAfter(t: Terms, k: nat): int
    requires Acceptable(t) && ValidDate(t.start) && k <= t.months
  {
    if k == 0 then t.principal else Amortise(t)[k - 1].remaining
  }

  /** The payments of months from..to. */
  function Payments(from: nat, to: nat): seq<Command>
    requires from <= to + 1
  {
    seq(to + 1 - from, i requires 0 <= i => Pay(from + i))
  }

  lemma {:induction false} PayingUp(b: Book, t: Terms, j: nat, k: nat)
    requires Acceptable(t) && ValidDate(t.start) && j <= k <= t.months && PaidUp(b, t, j)
    ensures PaidUp(Run(b, Payments(j + 1, k)), t, k)
    decreases k - j
  {
    hide ValidDate, Numbered, Amortise, PayResult, Restart, Balanced;
    if j < k {
      var cs := Payments(j + 1, k);
      AmortiseLength(t);
      StepExact(b, cs[0], 0);
      PaymentIsNextRow(b, j + 1);
      NextPaidBalanced(b, 0);
      assert b.rows[j].item == Items(b.rows)[j];
      assert Items(NextPaid(b).rows) == Items(b.rows);
      assert cs[1..] == Payments(j + 2, k);
      PayingUp(NextPaid(b), t, j + 1, k);
    }
  }

  /** Paying months 1 to k of a new loan leads there. */
  lemma PaidUpReached(t: Terms, k: nat)
    requires Acceptable(t) && ValidDate(t.start) && k <= t.months
    ensures Valid(Created(t)) && PaidUp(Run(Created(t), Payments(1, k)), t, k)
  {
    hide ValidDate, Amortise, Balanced, Closes, Restart, Valid;
    CreatedBalanced(t);
    assert Items(Created(t).rows) == Amortise(t);
    PayingUp(Created(t), t, 0, k);
  }

  /** The terms of the schedule a prepayment installs there. */
  function AfterPrepaying(t: Terms, k: nat, amount: int): (again: Terms)
    requires Acceptable(t) && ValidDate(t.start) && k < t.months
    ensures ValidTerms(again)
  {
    Terms(OwedAfter(t, k) - amount, t.annualRate, t.months - k, t.plan, t.day, CountsFrom(t.start, k, t.day), t.accrual)
  }

  /** Interest-only and bullet loans are regenerated over the months that remain, whichever the strategy. */
  lemma Regenerated(b: Book, t: Terms, k: nat, amount: int, strategy: Strategy)
    requires Acceptable(t) && ValidDate(t.start) && k < t.months && PaidUp(b, t, k)
    requires (t.plan == InterestOnly || t.plan == Bullet) && 0 < amount < OwedAfter(t, k)
    ensures PrepayResult(b, amount, strategy).Some?
    ensures var result := PrepayResult(b, amount, strategy).value;
            && result.newSchedule == Amortise(AfterPrepaying(t, k, amount))
            && result.interestBefore == RowInterest(b.rows)
            && result.interestAfter == PaidInterest(b.rows) + SumInterest(result.newSchedule)
  {
    hide ValidDate, Amortise, RowInterest, PaidInterest, SumInterest, DueDate, Numbered;
    RowsHaveDueDates(b);
    NextUnpaidDueValid(b.rows, b.loan.start);
    assert forall i :: 0 <= i < |b.rows| ==> (b.rows[i].paid <==> i < k) by {
      PaidFlags(b);
    }
    assert |b.rows| == t.months && b.rows[k].item == Amortise(t)[k] by {
      AmortiseLength(t);
      assert Items(b.rows)[k] == b.rows[k].item;
    }
    NextUnpaidDueIs(b.rows, k, b.loan.start);
    AmortiseLength(t);
    AmortiseDue(t);
  }

  lemma PaidFlags(b: Book)
    requires Valid(b)
    ensures forall i :: 0 <= i < |b.rows| ==> (b.rows[i].paid <==> i < b.loan.paidMonths)
  {}

  lemma AmortiseLength(t: Terms)
    requires Generates(t)
    ensures |Amortise(t)| == t.months
  {}

  // ---------------------------------------------------------------- interest-only loans

  lemma AllStillOwed(t: Terms, k: nat)
    requires Acceptable(t) && ValidDate(t.start) && k < t.months && t.plan == InterestOnly
    ensures OwedAfter(t, k) == t.principal
  {
    hide Interest, DailyInterest, DueDate, ValidDate;
    if k > 0 {
      assert Amortise(t)[k - 1] == InterestOnlyItem(t, k - 1);
    }
  }

  /** Interest-only by actual days: after a prepayment the first row charges day - 1 days, not the days since the last
      due date, and each later row its own days. */
  lemma PrepaidInterestOnly(b: Book, t: Terms, k: nat, amount: int, strategy: Strategy)
    requires Acceptable(t) && ValidDate(t.start) && k < t.months && PaidUp(b, t, k) && t.day >= 2
    requires t.plan == InterestOnly && t.accrual != Monthly && 0 < amount < t.principal
    ensures PrepayResult(b, amount, strategy).Some?
    ensures var items, rest := PrepayResult(b, amount, strategy).value.newSchedule, t.principal - amount;
            var rate := DailyRate(t.annualRate, t.accrual);
            && |items| == t.months - k
            && items[0].interest == SimpleInterest(rest, rate, t.day - 1)
            && forall i :: 0 < i < |items| ==>
                 items[i].interest == SimpleInterest(rest, rate, PeriodDays(t.start, k + i, t.day))
  {
    hide PaidUp, PrepayResult, DailyRate, SimpleInterest, DueDate, DaysInPeriod, ValidDate, PeriodDays, OwedAfter;
    AllStillOwed(t, k);
    Regenerated(b, t, k, amount, strategy);
    DaysDropped(t.start, k, t.day);
    var again := AfterPrepaying(t, k, amount);
    forall i | 0 <= i < again.months
      ensures Amortise(again)[i].interest
              == SimpleInterest(again.principal, DailyRate(t.annualRate, t.accrual), PeriodDays(again.start, i, t.day))
    {
      assert Amortise(again)[i] == InterestOnlyItem(again, i);
    }
  }

  // ---------------------------------------------------------------- bullet loans

  lemma {:induction false} RowInterestIs(rows: seq<Row>)
    ensures RowInterest(rows) == SumInterest(Items(rows))
  {
    if rows != [] {
      RowInterestIs(rows[..|rows| - 1]);
      assert Items(rows)[..|rows| - 1] == Items(rows[..|rows| - 1]);
    }
  }

  /** All the interest of a bullet loan stands in its last row. */
  lemma {:induction false} BulletSums(t: Terms, k: nat)
    requires Generates(t) && t.plan == Bullet && k <= t.months
    ensures SumInterest(Amortise(t)[..k]) == if k == t.months then BulletInterest(t) else 0
  {
    hide BulletInterest, DueDate;
    if k > 0 {
      BulletSums(t, k - 1);
      assert Amortise(t)[..k][..k - 1] == Amortise(t)[..k - 1];
      assert Amortise(t)[k - 1] == BulletItem(t, k - 1);
    }
  }

  lemma {:induction false} NothingPaidYet(rows: seq<Row>)
    requires forall row :: row in rows && row.paid ==> row.item.interest == 0
    ensures PaidInterest(rows) == 0
  {
    if rows != [] {
      NothingPaidYet(rows[..|rows| - 1]);
    }
  }

  lemma BulletRowsFree(b: Book, t: Terms, k: nat)
    requires Acceptable(t) && ValidDate(t.start) && k < t.months && PaidUp(b, t, k) && t.plan == Bullet
    ensures OwedAfter(t, k) == t.principal
    ensures forall row :: row in b.rows && row.paid ==> row.item.interest == 0
  {
    hide BulletInterest, DueDate, ValidDate;
    forall row | row in b.rows && row.paid
      ensures row.item.interest == 0
    {
      var i :| 0 <= i < |b.rows| && b.rows[i] == row;
      assert i < k && row.item == Items(b.rows)[i] == Amortise(t)[i] == BulletItem(t, i);
    }
    if k > 0 {
      assert Amortise(t)[k - 1] == BulletItem(t, k - 1);
    }
  }

  /** After k rows of a bullet loan the reply's total interest falls from that of the whole term to that of the months
      that remain on what is left: the interest of the months gone by is never charged. */
  lemma PrepaidBullet(b: Book, t: Terms, k: nat, amount: int, strategy: Strategy)
    requires Acceptable(t) && ValidDate(t.start) && k < t.months && PaidUp(b, t, k)
    requires t.plan == Bullet && 0 < amount < t.principal
    ensures PrepayResult(b, amount, strategy).Some?
    ensures var result, rest := PrepayResult(b, amount, strategy).value, t.principal - amount;
            && result.interestBefore == BulletInterest(t)
            && (t.accrual == Monthly ==>
                  result.interestAfter == SimpleInterest(rest, MonthlyRate(t.annualRate), t.months - k))
            && (t.accrual != Monthly ==>
                  NearSimpleInterest(result.interestAfter, rest, DailyRate(t.annualRate, t.accrual),
                                     DaysInPeriod(CountsFrom(t.start, k, t.day),
                                                  PeriodStart(CountsFrom(t.start, k, t.day), t.months - k, t.day)),
                                     t.months - k))
  {
    hide Amortise, SimpleInterest, NearSimpleInterest, DaysInPeriod, ValidDate, DueDate, MonthlyRate, DailyRate,
         PrepayResult;
    BulletRowsFree(b, t, k);
    Regenerated(b, t, k, amount, strategy);
    NothingPaidYet(b.rows);
    RowInterestIs(b.rows);
    var again := AfterPrepaying(t, k, amount);
    AmortiseLength(t);
    AmortiseLength(again);
    BulletSums(t, t.months);
    BulletSums(again, again.months);
    assert Amortise(t)[..t.months] == Amortise(t) && Amortise(again)[..again.months] == Amortise(again);
    if t.accrual != Monthly {
      DailyBulletDrift(again, again.months);
      DaysTelescope(again.start, again.months, again.day);
    }
  }

  /** The same along the run of the first k payments, by months. */
  lemma PaidThenPrepaid(t: Terms, k: nat, amount: int, strategy: Strategy)
    requires Acceptable(t) && ValidDate(t.start) && k < t.months && t.plan == Bullet && t.accrual == Monthly
    requires 0 < amount < t.principal
    ensures Valid(Created(t))
    ensures var b := Run(Created(t), Payments(1, k));
            && Valid(b) && PrepayResult(b, amount, strategy).Some?
            && var result := PrepayResult(b, amount, strategy).value;
               && result.interestBefore == SimpleInterest(t.principal, MonthlyRate(t.annualRate), t.months)
               && result.interestAfter == SimpleInterest(t.principal - amount, MonthlyRate(t.annualRate), t.months - k)
  {
    hide Valid, PrepayResult, PaidUp, Run, Payments, SimpleInterest, MonthlyRate, Created, ValidDate;
    PaidUpReached(t, k);
    PaidUpValid(Run(Created(t), Payments(1, k)), t, k);
    PrepaidBullet(Run(Created(t), Payments(1, k)), t, k, amount, strategy);
  }

  /** A thousand yuan for a year at one percent a month. */
  function Year(): Terms {
    Terms(100_000, 12.0, 12, Bullet, 15, Date(2024, 1, 1), Monthly)
  }

  /** Prepaying one cent of it after six months halves the interest. */
  lemma OneCentHalvesInterest()
    ensures Acceptable(Year()) && ValidDate(Year().start) && Valid(Created(Year()))
    ensures var b := Run(Created(Year()), Payments(1, 6));
            && Valid(b) && PrepayResult(b, 1, ReducePayment).Some?
            && PrepayResult(b, 1, ReducePayment).value.interestBefore == 12_000
            && PrepayResult(b, 1, ReducePayment).value.interestAfter == 6_000
  {
    hide *;
    YearTerms(Year());
    TwelvePercent();
    PaidThenPrepaid(Year(), 6, 1, ReducePayment);
  }

  lemma YearTerms(t: Terms)
    requires t == Year()
    ensures Acceptable(t) && ValidDate(t.start) && t.plan == Bullet && t.accrual == Monthly
    ensures t.principal == 100_000 && t.months == 12 && t.annualRate == 12.0
  {}

  lemma PaidUpValid(b: Book, t: Terms, k: nat)
    requires Acceptable(t) && ValidDate(t.start) && k <= t.months && PaidUp(b, t, k)
    ensures Valid(b)
  {}

  lemma TwelvePercent()
    ensures SimpleInterest(100_000, MonthlyRate(12.0), 12) == 12_000
    ensures SimpleInterest(99_999, MonthlyRate(12.0), 6) == 6_000
  {
    assert MonthlyRate(12.0) == 0.01;
  }
}
