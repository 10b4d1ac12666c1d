/** The loan lifecycle under conditions on the book and the request alone, checkable before each call. */
module LoanConditions {
  import opened Money
  import opened Calendar
  import opened Schedule
  import opened Amortization
  import opened FixedPlan
  import opened LoanTables
  import opened LoanLifecycle
  import opened LoanRuns
  import opened Wrappers

  /** Level plans: something is still owed at the last row. Even plans: the rounded parts before
      the last leave something. */
  ghost predicate Sized(t: Terms)
    requires Generates(t)
  {
    match t.plan
    case EqualInstallment => Left(t.principal, MonthlyRate(t.annualRate), LevelPayment(t), t.months - 1) > 0
    case EqualPrincipal => (t.months - 1) * EvenPart(t) < t.principal
    case EqualInterest => (t.months - 1) * EvenPart(t) < t.principal
    case InterestOnly => true
    case Bullet => true
  }

  /** Sized terms are exactly those whose schedule closes. */
  lemma SizedCloses(t: Terms)
    requires Generates(t)
    ensures Closes(Amortise(t)) <==> Sized(t)
  {
    hide Round, Interest, DueDate, ValidDate, LevelPayment, Left;
    if t.plan == EqualInstallment {
      hide Closes, Amortise;
      InstallmentClosesExactly(t);
    } else {
      RepaysIffCloses(t);
      PaidStep(t, t.months - 1);
      assert Amortise(t)[t.months - 1] == ItemAt(t, t.months - 1);
    }
  }

  /** Level terms are sized if the payment outgrows the drift, or the payments before the last stay below the
      principal; they are not if those payments reach it at the first month's pace. */
  lemma LevelSizes(t: Terms)
    requires Generates(t) && t.plan == EqualInstallment
    ensures OutgrowsDrift(t) || (t.months - 1) * LevelPayment(t) < t.principal ==> Sized(t)
    ensures (t.months - 1) * (LevelPayment(t) - Interest(t.principal, MonthlyRate(t.annualRate))) >= t.principal ==>
              !Sized(t)
  {
    hide OutgrowsDrift, Closes, Amortise, Sized, Interest, LevelPayment;
    SizedCloses(t);
    InstallmentPace(t);
    if OutgrowsDrift(t) {
      SizeConditionCloses(t);
    }
  }

  /** What the lifecycle asks of a request. A level loan is shortened within the month cap; any other schedule is
      regenerated from sized terms; and no rate change comes between a prepayment and the next payment. */
  ghost predicate Measured(b: Book, c: Command, pending: int)
    requires Valid(b)
  {
    match c
    case Pay(_) => true
    case Prepay(amount, strategy) =>
      0 < amount < b.loan.remaining ==> PrepaysMeasured(b, b.loan.remaining - amount, strategy)
    case ChangeRate(newRate) =>
      newRate > 0.0 && b.loan.paidMonths < |b.rows| ==>
        pending == 0 && (Restart(b) > 0 ==> Sized(RateChangeTerms(b, newRate)))
  }

  ghost predicate PrepaysMeasured(b: Book, rest: int, strategy: Strategy)
    requires Valid(b) && 0 < rest <= b.loan.remaining
  {
    if strategy == ReduceMonths && b.loan.plan == EqualInstallment then
      FixedLeft(rest, MonthlyRate(b.loan.annualRate), KeptPayment(b.loan), MONTH_CAP) == 0
    else if strategy == ReduceMonths && (b.loan.plan == EqualPrincipal || b.loan.plan == EqualInterest) then true
    else RegeneratesSized(b, rest)
  }

  /** A level loan shortens within the cap if the first month's pace clears the rest within it,
      and only if the payment itself would. */
  lemma ShorteningPace(loan: Loan, rest: int)
    requires CanRegenerate(loan) && rest >= 0
    ensures var r, pay := MonthlyRate(loan.annualRate), KeptPayment(loan);
            && (pay > Interest(rest, r) && rest <= MONTH_CAP * (pay - Interest(rest, r)) ==>
                  FixedLeft(rest, r, pay, MONTH_CAP) == 0)
            && (FixedLeft(rest, r, pay, MONTH_CAP) == 0 ==> rest <= MONTH_CAP * MostAMonth(pay))
  {
    hide Interest, FixedLeft, KeptPayment;
    RateOfLoan(loan.annualRate);
    PaceBounds(rest, MonthlyRate(loan.annualRate), KeptPayment(loan), MONTH_CAP);
  }

  ghost predicate RegeneratesSized(b: Book, principal: int)
    requires Valid(b) && principal > 0
  {
    RowsHaveDueDates(b);
    NextUnpaidDueValid(b.rows, b.loan.start);
    var t := RegeneratedTerms(b.loan, principal, b.loan.totalMonths - b.loan.paidMonths,
                              FirstOfMonth(NextUnpaidDue(b.rows, b.loan.start)));
    t.months > 0 ==> Sized(t)
  }

  lemma PrepaymentSchedule(b: Book, amount: int, strategy: Strategy)
    requires Valid(b) && PrepayResult(b, amount, strategy).Some?
    ensures ValidDate(FirstOfMonth(NextUnpaidDue(b.rows, b.loan.start)))
    ensures 0 < amount <= b.loan.remaining && (b.loan.totalMonths > 0)
    ensures var schedule := NewSchedule(b.loan, b.loan.remaining - amount,
                                        FirstOfMonth(NextUnpaidDue(b.rows, b.loan.start)), strategy);
            schedule == Some(PrepayResult(b, amount, strategy).value.newSchedule)
  {
    hide NewSchedule;
    RowsHaveDueDates(b);
    NextUnpaidDueValid(b.rows, b.loan.start);
  }

  lemma MeasuredPrepayment(b: Book, amount: int, strategy: Strategy, prepaid: int)
    requires Valid(b) && Balanced(b, prepaid)
    ensures Keeps(b, Prepay(amount, strategy)) <==> Measured(b, Prepay(amount, strategy), 0)
  {
    hide Calculation, Sized, ValidDate, Restart, Repays, FixedFrom, Amortise, Closes, NextUnpaidDue, KeptPayment,
         Owes, FixedLeft;
    if PrepayResult(b, amount, strategy).Some? {
      PrepaymentSchedule(b, amount, strategy);
      PrepaymentRestart(b, amount, strategy, prepaid);
      var start, rest := FirstOfMonth(NextUnpaidDue(b.rows, b.loan.start)), b.loan.remaining - amount;
      if rest > 0 {
        NewScheduleRepays(b.loan, rest, start, strategy);
        if strategy == ReduceMonths && b.loan.plan == EqualInstallment {
          FixedClosesExactly(rest, MonthlyRate(b.loan.annualRate), KeptPayment(b.loan), 0, b.loan.day, start);
        } else if !(strategy == ReduceMonths && b.loan.plan == EqualPrincipal) {
          SizedCloses(RegeneratedTerms(b.loan, rest, b.loan.totalMonths - b.loan.paidMonths, start));
        }
      }
    } else {
      NoPrepayment(b, amount, strategy);
    }
  }

  /** A prepayment within the balance is only ever refused where the source panics. */
  lemma NoPrepayment(b: Book, amount: int, strategy: Strategy)
    requires Valid(b) && PrepayResult(b, amount, strategy).None?
    ensures 0 < amount <= b.loan.remaining ==> strategy == ReduceMonths && b.loan.plan == EqualInterest
  {
    hide Amortise, FixedFrom, ValidDate, KeptPayment;
  }

  /** While a row is unpaid, something is owed. */
  ghost predicate StillOwes(b: Book) {
    b.loan.paidMonths < |b.rows| ==> b.loan.remaining > 0
  }

  /** Measured requests are exactly those that keep the books balanced. */
  lemma MeasuredExactly(b: Book, c: Command, prepaid: int, pending: int)
    requires Valid(b) && Balanced(b, prepaid) && Tracks(b, pending) && StillOwes(b)
    ensures Keeps(b, c) <==> Measured(b, c, pending)
  {
    match c
    case Pay(_) =>
    case Prepay(amount, strategy) =>
      hide PrepayResult;
      MeasuredPrepayment(b, amount, strategy, prepaid);
    case ChangeRate(newRate) =>
      if newRate > 0.0 && b.loan.paidMonths < |b.rows| {
        hide Restart, Sized, Amortise, Closes, ValidDate;
        if pending == 0 {
          SizedCloses(RateChangeTerms(b, newRate));
        }
      }
  }

  lemma StepStillOwes(b: Book, c: Command, prepaid: int)
    requires Valid(b) && Balanced(b, prepaid) && StillOwes(b)
    ensures StillOwes(Step(b, c))
  {
    match c
    case Pay(month) =>
      PaymentIsNextRow(b, month);
      hide PayResult, SumPrincipal;
      assert b.loan.paidMonths + 1 < |b.rows| ==> UnpaidItems(b)[0] == b.rows[b.loan.paidMonths].item;
    case Prepay(amount, strategy) =>
      if PrepayResult(b, amount, strategy).Some? {
        PrepaymentSchedule(b, amount, strategy);
        hide PrepayResult, ShorterSchedule, Amortise;
        PrepaymentKeeps(b, amount, strategy, prepaid);
        PrepaymentRestart(b, amount, strategy, prepaid);
        NumberedQueries(b.rows, b.loan.paidMonths);
      }
    case ChangeRate(newRate) =>
      if newRate > 0.0 {
        hide RateChanged;
        RateChangeKeepsCounters(b, newRate);
        AllPaidOrNot(b);
      } else {
        RateRefused(b, newRate);
      }
  }

  ghost predicate RunMeasured(b: Book, cs: seq<Command>, pending: int)
    requires Valid(b)
    decreases |cs|
  {
    cs != [] ==>
      Measured(b, cs[0], pending)
      && (StepExact(b, cs[0], 0); RunMeasured(Step(b, cs[0]), cs[1..], PendingAfter(b, cs[0], pending)))
  }

  lemma {:induction false} MeasuredRunExactly(b: Book, cs: seq<Command>, prepaid: int, pending: int)
    requires Valid(b) && Balanced(b, prepaid) && Tracks(b, pending) && StillOwes(b)
    ensures RunKeeps(b, cs) <==> RunMeasured(b, cs, pending)
    decreases |cs|
  {
    hide Valid, Balanced, Tracks, StillOwes, Measured, Keeps, Step, PendingAfter, PrepaidIn;
    if cs != [] {
      MeasuredExactly(b, cs[0], prepaid, pending);
      if Keeps(b, cs[0]) {
        StepExact(b, cs[0], prepaid);
        StepTracks(b, cs[0], prepaid, pending);
        StepStillOwes(b, cs[0], prepaid);
        MeasuredRunExactly(Step(b, cs[0]), cs[1..], prepaid + PrepaidIn(b, cs[0]), PendingAfter(b, cs[0], pending));
      }
    }
  }

  /** The books of a loan balance at every point of its life exactly when its terms are sized and its
      requests measured. */
  lemma MeasuredLife(t: Terms, cs: seq<Command>)
    requires Acceptable(t) && ValidDate(t.start)
    ensures Valid(Created(t))
    ensures BalancedThroughout(Created(t), cs, 0) <==> Sized(t) && RunMeasured(Created(t), cs, 0)
    ensures BalancedThroughout(Created(t), cs, 0) ==>
              var after := Run(Created(t), cs);
              && Balanced(after, PrepaidOver(Created(t), cs))
              && t.principal == SumPrincipal(PaidItems(after)) + PrepaidOver(Created(t), cs) + after.loan.remaining
  {
    hide Amortise, Sized, RunMeasured, RunKeeps, Run, PrepaidOver, ValidDate, SumPrincipal;
    SizedCloses(t);
    CreatedBalanced(t);
    CreatedTracks(t);
    if Sized(t) {
      MeasuredRunExactly(Created(t), cs, 0, 0);
      RunExact(Created(t), cs, 0);
      PrincipalFixed(Created(t), cs);
    }
  }
}
