/** Accepted requests that go wrong: families of them, with the condition, and one concrete loan each. */
module LoanShortfalls {
  import opened Money
  import opened Calendar
  import opened Schedule
  import opened Amortization
  import opened FixedPlan
  import opened LoanTables
  import opened LoanLifecycle
  import opened LoanRuns
  import opened LoanConditions
  import opened LoanShortening

  /** A prepayment on a loan just made is accepted, unless the code panics. */
  lemma FirstPrepayment(t: Terms, amount: int, strategy: Strategy)
    requires Acceptable(t) && ValidDate(t.start) && 0 < amount < t.principal
    requires strategy == ReduceMonths ==> t.plan != EqualInterest
    ensures Valid(Created(t)) && PrepayResult(Created(t), amount, strategy).Some?
  {
    hide ValidDate, Amortise, NewSchedule, Valid, Calculation;
    CreatedBalanced(t);
    if PrepayResult(Created(t), amount, strategy).None? {
      NoPrepayment(Created(t), amount, strategy);
    }
  }

  // ---------------------------------------------------------------- a rate change forgets a prepayment

  /** Prepay any part of an interest-only or bullet loan and change its rate: the books balance in between
      and not after, whatever the amounts. */
  lemma RateChangeForgets(t: Terms, amount: int, newRate: real)
    requires Acceptable(t) && ValidDate(t.start) && (t.plan == InterestOnly || t.plan == Bullet)
    requires 0 < amount < t.principal && newRate > 0.0
    ensures Valid(Created(t)) && Balanced(Created(t), 0)
    ensures var prepaid := Step(Created(t), Prepay(amount, ReducePayment));
            && Valid(prepaid) && Balanced(prepaid, amount)
            && Valid(Step(prepaid, ChangeRate(newRate))) && !Balanced(Step(prepaid, ChangeRate(newRate)), amount)
  {
    hide ValidDate, Amortise, Valid, Balanced, Tracks, Calculation, Sized, RateChanged;
    var b, c := Created(t), Prepay(amount, ReducePayment);
    SizedCloses(t);
    assert Sized(t) by {
      AlwaysSized(t);
    }
    CreatedBalanced(t);
    CreatedTracks(t);
    FirstPrepayment(t, amount, ReducePayment);
    assert Keeps(b, c) by {
      MeasuredPrepayment(b, amount, ReducePayment, 0);
      InterestFirstMeasured(b, b.loan.remaining - amount);
    }
    StepExact(b, c, 0);
    StepTracks(b, c, 0, 0);
    RowsRemain(t, amount);
    RateChangeNeedsNoPending(Step(b, c), newRate, amount, amount);
  }

  lemma AlwaysSized(t: Terms)
    requires Generates(t) && (t.plan == InterestOnly || t.plan == Bullet)
    ensures Sized(t)
  {}

  lemma InterestFirstMeasured(b: Book, rest: int)
    requires Valid(b) && 0 < rest <= b.loan.remaining && (b.loan.plan == InterestOnly || b.loan.plan == Bullet)
    ensures PrepaysMeasured(b, rest, ReducePayment)
  {}

  /** Lowering the payment leaves as many rows as there were. */
  lemma RowsRemain(t: Terms, amount: int)
    requires Acceptable(t) && ValidDate(t.start) && 0 < amount < t.principal
    ensures Valid(Created(t)) && PrepayResult(Created(t), amount, ReducePayment).Some?
    ensures var after := Prepaid(Created(t), PrepayResult(Created(t), amount, ReducePayment).value);
            after.loan.paidMonths == 0 < |after.rows|
  {
    hide ValidDate, Amortise, Valid;
    FirstPrepayment(t, amount, ReducePayment);
    PrepaymentItems(Created(t), amount, ReducePayment);
    PrepaidRows(Created(t), PrepayResult(Created(t), amount, ReducePayment).value);
  }

  lemma PrepaidRows(b: Book, result: PrepayCalc)
    ensures |Prepaid(b, result).rows| >= |result.newSchedule|
  {}

  /** One yuan borrowed for two months, half of it prepaid, then a new rate. */
  lemma RateChangeForgetsHalf()
    ensures var t := Terms(100, 0.0, 2, Bullet, 15, Date(2024, 1, 1), Monthly);
            && Acceptable(t) && ValidDate(t.start) && Valid(Created(t)) && Balanced(Created(t), 0)
            && var prepaid := Step(Created(t), Prepay(50, ReducePayment));
               && Valid(prepaid) && Balanced(prepaid, 50)
               && Valid(Step(prepaid, ChangeRate(1.0))) && !Balanced(Step(prepaid, ChangeRate(1.0)), 50)
  {
    var t := Terms(100, 0.0, 2, Bullet, 15, Date(2024, 1, 1), Monthly);
    assert Acceptable(t) && ValidDate(t.start);
    hide *;
    RateChangeForgets(t, 50, 1.0);
  }

  // ---------------------------------------------------------------- the month cap cuts a schedule off

  /** The kept payment of an interest-free loan. */
  function Share(t: Terms): int
    requires t.months > 0
  {
    Round(t.principal as real / t.months as real)
  }

  /** What shortening a new, interest-free level loan installs: rows of its share. */
  lemma ShortenedFreely(t: Terms, amount: int)
    requires Acceptable(t) && ValidDate(t.start) && t.plan == EqualInstallment && t.annualRate == 0.0
    requires 0 < amount < t.principal
    ensures Valid(Created(t)) && PrepayResult(Created(t), amount, ReduceMonths).Some?
    ensures KeptPayment(Created(t).loan) == Share(t) >= 0
    ensures var result, start := PrepayResult(Created(t), amount, ReduceMonths).value,
                                 FirstOfMonth(NextUnpaidDue(Created(t).rows, t.start));
            && ValidDate(start)
            && result.newSchedule == FixedFrom(t.principal - amount, 0.0, Share(t), 0, t.day, start)
            && result.newTotalMonths == |result.newSchedule|
  {
    hide ValidDate, Amortise, Valid, FixedFrom, NextUnpaidDue, FirstOfMonth, Calculation;
    FirstPrepayment(t, amount, ReduceMonths);
    PrepaymentSchedule(Created(t), amount, ReduceMonths);
    PrepaymentItems(Created(t), amount, ReduceMonths);
    ShareNonNegative(t.principal, t.months);
  }

  /** Shortening such a loan keeps its books balanced exactly when 720 rows of its share repay the rest. */
  lemma CapCutsOffExactly(t: Terms, amount: int)
    requires Acceptable(t) && ValidDate(t.start) && t.plan == EqualInstallment && t.annualRate == 0.0
    requires 0 < amount < t.principal && (t.months - 1) * Share(t) < t.principal
    ensures Valid(Created(t)) && Balanced(Created(t), 0)
    ensures Valid(Step(Created(t), Prepay(amount, ReduceMonths)))
    ensures Balanced(Step(Created(t), Prepay(amount, ReduceMonths)), amount)
            <==> t.principal - amount <= MONTH_CAP * MostAMonth(Share(t))
  {
    hide ValidDate, Amortise, Valid, Balanced, FixedFrom, NextUnpaidDue, FirstOfMonth, Step, Closes, Share, MostAMonth;
    var b := Created(t);
    FreelyCloses(t);
    CreatedBalanced(t);
    ShortenedFreely(t, amount);
    StepExact(b, Prepay(amount, ReduceMonths), 0);
    ZeroRateFixedCloses(t.principal - amount, Share(t), 0, t.day, FirstOfMonth(NextUnpaidDue(b.rows, t.start)));
    NotEmpty(t, amount);
  }

  lemma FreelyCloses(t: Terms)
    requires Acceptable(t) && ValidDate(t.start) && t.plan == EqualInstallment && t.annualRate == 0.0
    requires (t.months - 1) * Share(t) < t.principal
    ensures Closes(Amortise(t))
  {
    hide Closes, Amortise;
    ZeroRateCloses(t);
  }

  lemma NotEmpty(t: Terms, amount: int)
    requires Acceptable(t) && ValidDate(t.start) && amount < t.principal
    ensures forall start: Date :: ValidDate(start) ==>
              FixedFrom(t.principal - amount, 0.0, Share(t), 0, t.day, start) != []
  {}

  /** If they do not, the last of 720 rows records what the cap leaves unpaid. */
  lemma CutOffLeaves(t: Terms, amount: int)
    requires Acceptable(t) && ValidDate(t.start) && t.plan == EqualInstallment && t.annualRate == 0.0
    requires 0 < amount < t.principal && t.principal - amount > MONTH_CAP * MostAMonth(Share(t))
    ensures Valid(Created(t)) && PrepayResult(Created(t), amount, ReduceMonths).Some?
    ensures var rows := PrepayResult(Created(t), amount, ReduceMonths).value.newSchedule;
            && |rows| == MONTH_CAP
            && rows[MONTH_CAP - 1].remaining == t.principal - amount - MONTH_CAP * MostAMonth(Share(t))
  {
    hide ValidDate, Amortise, Valid, FixedFrom, NextUnpaidDue, FirstOfMonth, Calculation, Share, MostAMonth;
    ShortenedFreely(t, amount);
    var start := FirstOfMonth(NextUnpaidDue(Created(t).rows, t.start));
    FreeRows(t.principal - amount, Share(t), t.day, start, MONTH_CAP);
    FreeRows(t.principal - amount, Share(t), t.day, start, MONTH_CAP - 1);
    assert (MONTH_CAP - 1) * MostAMonth(Share(t)) <= MONTH_CAP * MostAMonth(Share(t)) by {
      AtLeastACent(Share(t));
    }
  }

  lemma AtLeastACent(pay: int)
    ensures MostAMonth(pay) >= 1
  {}

  /** An interest-free level loan from the first of 2024. */
  function Free(principal: int, months: nat): Terms {
    Terms(principal, 0.0, months, EqualInstallment, 15, Date(2024, 1, 1), Monthly)
  }

  lemma FreeIsAcceptable(principal: int, months: nat, share: int)
    requires principal > 0 && months > 0 && months * share == principal && share > 0
    ensures Acceptable(Free(principal, months)) && ValidDate(Free(principal, months).start)
    ensures Share(Free(principal, months)) == MostAMonth(share) == share
  {
    hide Round;
    ProductAsReal(months, share);
    assert share as real * months as real / months as real == share as real;
    RoundExact(share);
  }

  /** A thousand yuan over a thousand months: prepaying one leaves 999, and after the 720th row of one yuan
      each, 279 are still owed. */
  lemma CapCutsOff()
    ensures var t := Free(100_000, 1000);
            && Acceptable(t) && ValidDate(t.start) && Valid(Created(t)) && Balanced(Created(t), 0)
            && PrepayResult(Created(t), 100, ReduceMonths).Some?
            && var rows := PrepayResult(Created(t), 100, ReduceMonths).value.newSchedule;
               && |rows| == 720 && rows[719].remaining == 27_900
               && Valid(Step(Created(t), Prepay(100, ReduceMonths)))
               && !Balanced(Step(Created(t), Prepay(100, ReduceMonths)), 100)
  {
    var t := Free(100_000, 1000);
    assert t.principal == 100_000 && t.months == 1000 && t.plan == EqualInstallment && t.annualRate == 0.0;
    hide *;
    FreeIsAcceptable(100_000, 1000, 100);
    CapCutsOffExactly(t, 100);
    CutOffLeaves(t, 100);
  }

  // ---------------------------------------------------------------- shortening lengthens

  /** Shortening a new, interest-free level loan leaves no more months than it had exactly when the rest is at most
      the share times those months, or they reach the cap. */
  lemma LengthensExactly(t: Terms, amount: int)
    requires Acceptable(t) && ValidDate(t.start) && t.plan == EqualInstallment && t.annualRate == 0.0
    requires 0 < amount < t.principal
    ensures Valid(Created(t)) && PrepayResult(Created(t), amount, ReduceMonths).Some?
    ensures PrepayResult(Created(t), amount, ReduceMonths).value.newTotalMonths <= t.months
            <==> t.months >= MONTH_CAP || t.principal - amount <= t.months * MostAMonth(Share(t))
  {
    hide ValidDate, Amortise, Valid, FixedFrom, NextUnpaidDue, FirstOfMonth, Calculation, Share, MostAMonth;
    ShortenedFreely(t, amount);
    var start := FirstOfMonth(NextUnpaidDue(Created(t).rows, t.start));
    FreeRows(t.principal - amount, Share(t), t.day, start, if t.months <= MONTH_CAP then t.months else MONTH_CAP);
  }

  /** 149 cents over 100 months: the share rounds down to one cent, so prepaying one cent to shorten the loan
      makes it longer, and the reply reports no months reduced. */
  lemma ShorteningLengthens()
    ensures var t := Free(149, 100);
            && Acceptable(t) && ValidDate(t.start) && Valid(Created(t))
            && PrepayResult(Created(t), 1, ReduceMonths).Some?
            && PrepayResult(Created(t), 1, ReduceMonths).value.newTotalMonths > 100
            && PrepayResult(Created(t), 1, ReduceMonths).value.monthsReduced == 0
  {
    var t := Free(149, 100);
    assert t.principal == 149 && t.months == 100 && t.plan == EqualInstallment && t.annualRate == 0.0;
    hide Free, Created, Valid, PrepayResult, Share, ValidDate, Acceptable;
    RoundedDown();
    LengthensExactly(t, 1);
    CreatedOwes(t);
    ShortensExactly(Created(t), 1);
  }

  lemma RoundedDown()
    ensures Acceptable(Free(149, 100)) && ValidDate(Free(149, 100).start) && Share(Free(149, 100)) == 1
  {}

  lemma CreatedOwes(t: Terms)
    requires Acceptable(t) && ValidDate(t.start)
    ensures Created(t).loan.remaining == t.principal && Created(t).loan.totalMonths == t.months
  {}

  /** Ten yuan over ten months at one yuan each: prepaying five halves the term, and the payment a second
      shortening keeps is two yuan. */
  lemma SecondShorteningPaysMore()
    ensures var t := Free(1000, 10);
            && Acceptable(t) && ValidDate(t.start) && Valid(Created(t)) && KeptPayment(Created(t).loan) == 100
            && PrepayResult(Created(t), 500, ReduceMonths).Some?
            && var after := Prepaid(Created(t), PrepayResult(Created(t), 500, ReduceMonths).value);
               after.loan.totalMonths == 5 && CanRegenerate(after.loan) && KeptPayment(after.loan) == 200
  {
    var t := Free(1000, 10);
    assert t.principal == 1000 && t.months == 10 && t.plan == EqualInstallment && t.annualRate == 0.0 && t.day == 15;
    hide *;
    FreeIsAcceptable(1000, 10, 100);
    ShortenedFreely(t, 500);
    var start := FirstOfMonth(NextUnpaidDue(Created(t).rows, t.start));
    FreeRows(500, 100, 15, start, 4);
    FreeRows(500, 100, 15, start, 5);
    FreeIsAcceptable(1000, 5, 200);
    FreelyKept(t, PrepayResult(Created(t), 500, ReduceMonths).value);
  }

  lemma FreelyKept(t: Terms, result: PrepayCalc)
    requires Acceptable(t) && ValidDate(t.start) && t.annualRate == 0.0 && result.newTotalMonths > 0
    ensures var loan := Prepaid(Created(t), result).loan;
            && loan.totalMonths == result.newTotalMonths && CanRegenerate(loan)
            && KeptPayment(loan) == Round(t.principal as real / result.newTotalMonths as real)
  {}
}
