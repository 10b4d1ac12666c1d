/** What a prepayment or a rate change installs and answers, in terms of the rows before and after
    (server/internal/loan/prepayment.go and server/internal/loan/service.go). */
module LoanReplies {
  import opened Money
  import opened Calendar
  import opened Schedule
  import opened Amortization
  import opened FixedPlan
  import opened LoanTables
  import opened LoanLifecycle
  import opened LoanRuns
  import opened LoanCalendar
  import opened LoanConditions
  import opened LoanInterest
  import opened Charges
  import opened Wrappers

  // ---------------------------------------------------------------- figures

  lemma {:induction false} PaidInterestIs(rows: seq<Row>, paid: nat)
    requires paid <= |rows| && forall i :: 0 <= i < |rows| ==> (rows[i].paid <==> i < paid)
    ensures PaidInterest(rows) == SumInterest(Items(rows[..paid]))
  {
    if rows != [] {
      var before := rows[..|rows| - 1];
      if paid == |rows| {
        PaidInterestIs(before, paid - 1);
        assert rows[..paid] == rows;
        assert Items(rows)[..paid - 1] == Items(before[..paid - 1]);
      } else {
        PaidInterestIs(before, paid);
        assert before[..paid] == rows[..paid];
      }
    }
  }

  lemma ItemsSplit(rows: seq<Row>, paid: nat)
    requires paid <= |rows|
    ensures SumInterest(Items(rows)) == SumInterest(Items(rows[..paid])) + SumInterest(Items(rows[paid..]))
  {
    SumConcat(Items(rows[..paid]), Items(rows[paid..]));
    assert Items(rows) == Items(rows[..paid]) + Items(rows[paid..]);
  }

  lemma ReplyFields(b: Book, amount: int, strategy: Strategy)
    requires Valid(b) && PrepayResult(b, amount, strategy).Some?
    ensures var result := PrepayResult(b, amount, strategy).value;
            && result.interestBefore == RowInterest(b.rows)
            && result.interestAfter == PaidInterest(b.rows) + SumInterest(result.newSchedule)
            && result.interestSaved == AtLeastZero(result.interestBefore - result.interestAfter)
            && result.monthsReduced == AtLeastZero(b.loan.totalMonths - b.loan.paidMonths - |result.newSchedule|)
            && result.displayPayment == (if result.newSchedule != [] then result.newSchedule[0].payment else 0)
  {
    hide NewSchedule, RowInterest, PaidInterest, SumInterest, Numbered, ValidDate, NextUnpaidDue, FirstOfMonth;
  }

  /** Every accepted prepayment answers with the interest of the rows there were, of the rows there are now, paid ones
      included, and the difference, or nothing if it rose; the months by which the loan got shorter; and the payment of
      the first row installed. */
  lemma PrepaymentFigures(b: Book, amount: int, strategy: Strategy)
    requires Valid(b) && PrepayResult(b, amount, strategy).Some?
    ensures var result := PrepayResult(b, amount, strategy).value;
            var after := Prepaid(b, result);
            var before, now := SumInterest(Items(b.rows)), SumInterest(Items(after.rows));
            && result.interestBefore == before && result.interestAfter == now
            && result.interestSaved == (if now <= before then before - now else 0)
            && result.monthsReduced
               == (if |after.rows| <= b.loan.totalMonths then b.loan.totalMonths - |after.rows| else 0)
            && b.loan.paidMonths <= |after.rows| && after.rows[..b.loan.paidMonths] == b.rows[..b.loan.paidMonths]
            && after.loan == b.loan.(remaining := b.loan.remaining - amount, totalMonths := |after.rows|)
            && result.displayPayment
               == (if b.loan.paidMonths < |after.rows| then after.rows[b.loan.paidMonths].item.payment else 0)
  {
    hide ValidDate, PrepayResult, RowInterest, PaidInterest, SumInterest, Repays, Closes;
    PrepaymentItems(b, amount, strategy);
    ReplyFields(b, amount, strategy);
    PaidFlags(b);
    var result := PrepayResult(b, amount, strategy).value;
    var paid, after := b.loan.paidMonths, Prepaid(b, result);
    RowInterestIs(b.rows);
    PaidInterestIs(b.rows, paid);
    NumberedRegrow(b.rows, paid, result.newSchedule);
    hide Numbered, Valid;
    ItemsSplit(after.rows, paid);
    assert result.newSchedule != [] ==> Items(after.rows[paid..])[0] == after.rows[paid].item;
  }

  // ---------------------------------------------------------------- payments

  /** Paying the next month marks its row, counts it, takes its recorded balance and answers with it; a paid month is
      answered with its row, and any other request with what is wrong, both without effect. */
  lemma PaymentAnswers(b: Book, month: int)
    requires Valid(b)
    ensures var (after, reply), paid := PayResult(b, month), b.loan.paidMonths;
            && (if month <= 0 then reply == InvalidMonth
                else if month <= paid then reply == AlreadyPaid(b.rows[month - 1].item)
                else if paid == |b.rows| then reply == AllCompleted
                else if month == paid + 1 then reply == Paid(b.rows[paid].item)
                else reply == OutOfSequence(paid + 1))
            && after == (if 0 < month == paid + 1 <= |b.rows|
                         then Book(b.loan.(paidMonths := paid + 1, remaining := b.rows[paid].item.remaining),
                                   b.rows[paid := b.rows[paid].(paid := true)])
                         else b)
  {
    PaymentIsNextRow(b, month);
    hide ValidDate, MarkPaid, CountPaid;
    NumberedQueries(b.rows, b.loan.paidMonths);
    NumberedFind(b.rows, b.loan.paidMonths, month);
  }

  // ---------------------------------------------------------------- schedules

  /** The first of the month of the next due date. */
  function NextMonth(b: Book): (d: Date)
    requires Valid(b) && b.loan.paidMonths < |b.rows|
  {
    Date(b.rows[b.loan.paidMonths].item.due.year, b.rows[b.loan.paidMonths].item.due.month, 1)
  }

  lemma NextMonthIs(b: Book)
    requires Valid(b) && b.loan.paidMonths < |b.rows|
    ensures FirstOfMonth(NextUnpaidDue(b.rows, b.loan.start)) == NextMonth(b) && ValidDate(NextMonth(b))
  {
    PaidFlags(b);
    FirstOfUnpaidValid(b);
    hide ValidDate, Numbered;
    NextUnpaidDueIs(b.rows, b.loan.paidMonths, b.loan.start);
  }

  /** What a prepayment installs on the months that remain: the loan's own plan on the rest, at its own rate and day,
      from the next month on. */
  lemma LowerPaymentInstalls(b: Book, amount: int, strategy: Strategy)
    requires Valid(b) && b.loan.paidMonths < |b.rows| && 0 < amount < b.loan.remaining
    requires strategy == ReducePayment || b.loan.plan == InterestOnly || b.loan.plan == Bullet
    ensures PrepayResult(b, amount, strategy).Some?
    ensures var t := Terms(b.loan.remaining - amount, b.loan.annualRate, b.loan.totalMonths - b.loan.paidMonths,
                           b.loan.plan, b.loan.day, NextMonth(b), b.loan.accrual);
            Generates(t) && PrepayResult(b, amount, strategy).value.newSchedule == Amortise(t)
  {
    NextMonthIs(b);
    hide Amortise, ValidDate, NextUnpaidDue, FirstOfMonth, Numbered, NextMonth, KeptPayment, FixedFrom;
    if PrepayResult(b, amount, strategy).None? {
      NoPrepayment(b, amount, strategy);
    }
    PrepaymentSchedule(b, amount, strategy);
  }

  lemma MonthIsATwelfth(annualRate: real)
    ensures MonthlyRate(annualRate) == annualRate / 1200.0
  {}

  lemma FewestMonths(rest: int, part: int)
    requires rest > 0 && part >= 0
    ensures var n := EvenMonths(rest, part);
            n >= 1 && if part > 0 then (n - 1) * part < rest <= n * part else n == 1
  {
    if part > 0 {
      CeilOfParts(rest, part);
    }
  }

  lemma EvenShorter(loan: Loan, rest: int, start: Date)
    requires CanRegenerate(loan) && ValidDate(start) && rest > 0 && loan.principal > 0 && loan.plan == EqualPrincipal
    ensures ShorterSchedule(loan, rest, start).Some?
    ensures var items := ShorterSchedule(loan, rest, start).value;
            var part := Round(loan.principal as real / loan.totalMonths as real);
            && items == Amortise(Terms(rest, loan.annualRate, |items|, EqualPrincipal, loan.day, start, loan.accrual))
            && if part > 0 then (|items| - 1) * part < rest <= |items| * part else |items| == 1
  {
    hide Amortise, ValidDate, Round, EvenMonths, KeptPayment, FixedFrom;
    var part := Round(loan.principal as real / loan.totalMonths as real);
    ShareNonNegative(loan.principal, loan.totalMonths);
    FewestMonths(rest, part);
    AmortiseLength(RegeneratedTerms(loan, rest, EvenMonths(rest, part), start));
  }

  lemma LevelShorter(loan: Loan, rest: int, start: Date)
    requires CanRegenerate(loan) && ValidDate(start) && loan.plan == EqualInstallment
    ensures loan.annualRate / 1200.0 >= 0.0
    ensures var r := loan.annualRate / 1200.0;
            ShorterSchedule(loan, rest, start)
            == Some(FixedFrom(rest, r, Round(Annuity(loan.principal, r, loan.totalMonths)), 0, loan.day, start))
  {
    MonthIsATwelfth(loan.annualRate);
    hide Amortise, ValidDate, Round, FixedFrom, Annuity, MonthlyRate;
    RateOfLoan(loan.annualRate);
  }

  /** Shortening an even loan: the fewest months at the original part; shortening a level loan: its payment over its
      present months, kept. An equal-interest loan cannot be shortened: the code panics. */
  lemma ShorteningInstalls(b: Book, amount: int)
    requires Valid(b) && b.loan.paidMonths < |b.rows| && 0 < amount < b.loan.remaining
    ensures b.loan.plan == EqualInterest <==> PrepayResult(b, amount, ReduceMonths).None?
    ensures b.loan.plan == EqualPrincipal ==>
              var items := PrepayResult(b, amount, ReduceMonths).value.newSchedule;
              var rest, part := b.loan.remaining - amount, Round(b.loan.principal as real / b.loan.totalMonths as real);
              && items == Amortise(Terms(rest, b.loan.annualRate, |items|, EqualPrincipal, b.loan.day, NextMonth(b),
                                         b.loan.accrual))
              && (if part > 0 then (|items| - 1) * part < rest <= |items| * part else |items| == 1)
    ensures b.loan.plan == EqualInstallment ==>
              var r := b.loan.annualRate / 1200.0;
              && r >= 0.0
              && PrepayResult(b, amount, ReduceMonths).value.newSchedule
                 == FixedFrom(b.loan.remaining - amount, r, Round(Annuity(b.loan.principal, r, b.loan.totalMonths)), 0,
                              b.loan.day, NextMonth(b))
  {
    hide Amortise, ValidDate, NextUnpaidDue, FirstOfMonth, Numbered, NextMonth, FixedFrom, Round, Annuity,
         ShorterSchedule;
    NextMonthIs(b);
    Shortenable(b, amount);
    if PrepayResult(b, amount, ReduceMonths).Some? {
      PrepaymentSchedule(b, amount, ReduceMonths);
    }
    hide PrepayResult;
    if b.loan.plan == EqualPrincipal {
      EvenShorter(b.loan, b.loan.remaining - amount, NextMonth(b));
    } else if b.loan.plan == EqualInstallment {
      LevelShorter(b.loan, b.loan.remaining - amount, NextMonth(b));
    }
  }

  lemma Shortenable(b: Book, amount: int)
    requires Valid(b) && 0 < amount < b.loan.remaining
    ensures b.loan.plan == EqualInterest <==> PrepayResult(b, amount, ReduceMonths).None?
  {
    hide Amortise, FixedFrom, ValidDate, KeptPayment, Numbered;
  }

  /** A rate change: the new rate on what the last paid row, or the loan, leaves owing, over the months that remain. */
  lemma RateChangeInstalls(b: Book, newRate: real)
    requires Valid(b) && newRate > 0.0
    ensures RateChanged(b, newRate).Some?
    ensures var after, paid := RateChanged(b, newRate).value, b.loan.paidMonths;
            && after.loan == b.loan.(annualRate := newRate)
            && (paid == |b.rows| ==> after.rows == b.rows)
            && (paid < |b.rows| ==>
                  var owed := if paid == 0 then b.loan.principal else b.rows[paid - 1].item.remaining;
                  var t := Terms(owed, newRate, b.loan.totalMonths - paid, b.loan.plan, b.loan.day, NextMonth(b),
                                 b.loan.accrual);
                  && ValidTerms(t) && |after.rows| == paid + |Amortise(t)|
                  && after.rows[..paid] == b.rows[..paid] && Items(after.rows[paid..]) == Amortise(t))
  {
    hide Amortise, ValidDate, RateChanged, Restart;
    RateChangeIsReschedule(b, newRate);
    AllPaidOrNot(b);
    if b.loan.paidMonths < |b.rows| {
      var t := RateChangeTerms(b, newRate);
      FirstOfUnpaidValid(b);
      RestartOf(b);
      Regrown(b.rows[..b.loan.paidMonths], Amortise(t), b.loan.paidMonths + 1);
    }
  }

  lemma Regrown(kept: seq<Row>, items: seq<Item>, first: int)
    ensures var rows := kept + NewRows(items, first);
            |rows| == |kept| + |items| && rows[..|kept|] == kept && Items(rows[|kept|..]) == items
  {
    var rows := kept + NewRows(items, first);
    assert rows[|kept|..] == NewRows(items, first);
  }

  // ---------------------------------------------------------------- a loan with flat interest

  lemma FlatRows(t: Terms, k: nat)
    requires Generates(t) && t.plan == EqualInterest && k <= t.months
    ensures |Amortise(t)| == t.months
    ensures SumInterest(Amortise(t)[..k]) == k * Round(MonthShare(t.principal, t.annualRate))
  {
    hide Round, MonthShare, ItemAt;
    AmortiseLength(t);
    forall i | 0 <= i < k
      ensures Amortise(t)[..k][i].interest == Round(MonthShare(t.principal, t.annualRate))
    {
      WholePrincipalCharges(t, i);
    }
    EqualSums(Amortise(t)[..k], Round(MonthShare(t.principal, t.annualRate)));
  }

  /** An equal-interest loan prepaid after k payments: k months at the old interest stay paid, the others charge the
      rest. */
  lemma FlatReply(b: Book, t: Terms, k: nat, amount: int)
    requires Acceptable(t) && ValidDate(t.start) && k < t.months && PaidUp(b, t, k)
    requires t.plan == EqualInterest && 0 < amount < OwedAfter(t, k)
    ensures PrepayResult(b, amount, ReducePayment).Some?
    ensures var result := PrepayResult(b, amount, ReducePayment).value;
            && result.interestBefore == t.months * Round(MonthShare(t.principal, t.annualRate))
            && result.interestAfter == k * Round(MonthShare(t.principal, t.annualRate))
                                       + (t.months - k) * Round(MonthShare(OwedAfter(t, k) - amount, t.annualRate))
  {
    hide ValidDate, Amortise, SumInterest, MonthShare, Round, Numbered, PrepayResult;
    AmortiseLength(t);
    LowerPaymentInstalls(b, amount, ReducePayment);
    PrepaymentFigures(b, amount, ReducePayment);
    NextMonthIs(b);
    var again := Terms(b.loan.remaining - amount, t.annualRate, t.months - k, t.plan, t.day, NextMonth(b), t.accrual);
    FlatRows(t, t.months);
    FlatRows(t, k);
    FlatRows(again, again.months);
    var after := Prepaid(b, PrepayResult(b, amount, ReducePayment).value);
    assert Amortise(t)[..t.months] == Amortise(t) && Amortise(again)[..again.months] == Amortise(again);
    NumberedRegrow(b.rows, k, Amortise(again)) by {
      GeneratedDates(again);
    }
    ItemsSplit(after.rows, k);
    assert Items(after.rows[..k]) == Items(b.rows)[..k];
  }

  /** Twelve thousand yuan at one percent a month with flat interest, six months paid, three thousand prepaid: 1440 yuan
      of interest before, 900 after, 540 saved. */
  lemma FlatLoanSaves()
    ensures var t := YearOf(EqualInterest);
            && Acceptable(t) && ValidDate(t.start) && Valid(Created(t))
            && var b := Run(Created(t), Payments(1, 6));
               && Valid(b) && PrepayResult(b, 300_000, ReducePayment).Some?
               && var result := PrepayResult(b, 300_000, ReducePayment).value;
                  && result.interestBefore == 144_000 && result.interestAfter == 90_000
                  && result.interestSaved == 54_000
  {
    hide *;
    var t := YearOf(EqualInterest);
    FlatYearOwed(t);
    PaidUpReached(t, 6);
    var b := Run(Created(t), Payments(1, 6));
    PaidUpValid(b, t, 6);
    FlatReply(b, t, 6, 300_000);
    PrepaymentFigures(b, 300_000, ReducePayment);
    OnePercent(12_000);
    OnePercent(3_000);
  }

  lemma FlatYearOwed(t: Terms)
    requires t == YearOf(EqualInterest)
    ensures Acceptable(t) && ValidDate(t.start) && t.plan == EqualInterest && t.annualRate == 12.0
    ensures t.principal == 1_200_000 && t.months == 12 && OwedAfter(t, 6) == 600_000
  {
    YearOfTerms(t, EqualInterest);
    assert Acceptable(t) && ValidDate(t.start);
    hide Round, EvenPart, Interest, MonthlyRate, DueDate;
    assert Amortise(t)[5] == EvenItem(t, 5);
  }
}
