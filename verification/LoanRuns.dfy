/** Whole runs of a loan: which requests keep the books balanced, and what a rate change needs. */
module LoanRuns {
  import opened Calendar
  import opened Schedule
  import opened Amortization
  import opened FixedPlan
  import opened LoanTables
  import opened LoanLifecycle
  import opened Wrappers

  datatype Command = Pay(month: int) | Prepay(amount: int, strategy: Strategy) | ChangeRate(newRate: real)

  /** A refused request leaves the book as it was. */
  function Step(b: Book, c: Command): Book
    requires Valid(b)
  {
    match c
    case Pay(month) => PayResult(b, month).0
    case Prepay(amount, strategy) =>
      var result := PrepayResult(b, amount, strategy);
      if result.Some? then Prepaid(b, result.value) else b
    case ChangeRate(newRate) =>
      var after := RateChanged(b, newRate);
      if after.Some? then after.value else b
  }

  function PrepaidIn(b: Book, c: Command): int
    requires Valid(b)
  {
    if c.Prepay? && PrepayResult(b, c.amount, c.strategy).Some? then c.amount else 0
  }

  /** What a request must meet to keep the books balanced. Payments always do. */
  ghost predicate Keeps(b: Book, c: Command)
    requires Valid(b)
  {
    match c
    case Pay(_) => true
    case Prepay(amount, strategy) =>
      var result := PrepayResult(b, amount, strategy);
      result.Some? ==> result.value.newSchedule == [] || Closes(result.value.newSchedule)
    case ChangeRate(newRate) =>
      newRate > 0.0 && b.loan.paidMonths < |b.rows| ==>
        Restart(b) == b.loan.remaining && Closes(RateChangeItems(b, newRate))
  }

  /** Exactly the requests that meet it do. */
  lemma StepExact(b: Book, c: Command, prepaid: int)
    requires Valid(b)
    ensures Valid(Step(b, c))
    ensures Balanced(b, prepaid) ==> (Balanced(Step(b, c), prepaid + PrepaidIn(b, c)) <==> Keeps(b, c))
  {
    hide Valid, Balanced, PayResult, PrepayResult, Prepaid, RateChanged, RateChangeItems, Closes, Restart;
    match c
    case Pay(month) => PaymentKeeps(b, month, prepaid);
    case Prepay(amount, strategy) =>
      if PrepayResult(b, amount, strategy).Some? {
        PrepaymentKeeps(b, amount, strategy, prepaid);
      }
    case ChangeRate(newRate) =>
      if newRate > 0.0 {
        RateChangeKeeps(b, newRate, prepaid);
        AllPaidOrNot(b);
      } else {
        RateRefused(b, newRate);
      }
  }

  lemma AllPaidOrNot(b: Book)
    requires Valid(b)
    ensures b.loan.paidMonths <= |b.rows|
  {}

  lemma RateRefused(b: Book, newRate: real)
    requires Valid(b) && newRate <= 0.0
    ensures RateChanged(b, newRate) == None
  {}

  function Run(b: Book, cs: seq<Command>): (after: Book)
    requires Valid(b)
    ensures Valid(after)
    decreases |cs|
  {
    if cs == [] then b
    else
      StepExact(b, cs[0], 0);
      Run(Step(b, cs[0]), cs[1..])
  }

  ghost predicate RunKeeps(b: Book, cs: seq<Command>)
    requires Valid(b)
    decreases |cs|
  {
    cs == [] || (Keeps(b, cs[0]) && (StepExact(b, cs[0], 0); RunKeeps(Step(b, cs[0]), cs[1..])))
  }

  function PrepaidOver(b: Book, cs: seq<Command>): int
    requires Valid(b)
    decreases |cs|
  {
    if cs == [] then 0
    else
      StepExact(b, cs[0], 0);
      PrepaidIn(b, cs[0]) + PrepaidOver(Step(b, cs[0]), cs[1..])
  }

  /** The books balance before, after and at every point of the run. */
  ghost predicate BalancedThroughout(b: Book, cs: seq<Command>, prepaid: int)
    requires Valid(b)
    decreases |cs|
  {
    && Balanced(b, prepaid)
    && (cs != [] ==>
          (StepExact(b, cs[0], 0); BalancedThroughout(Step(b, cs[0]), cs[1..], prepaid + PrepaidIn(b, cs[0]))))
  }

  /** From balanced books, a run stays balanced throughout exactly when each request meets its condition. */
  lemma {:induction false} RunExact(b: Book, cs: seq<Command>, prepaid: int)
    requires Valid(b) && Balanced(b, prepaid)
    ensures BalancedThroughout(b, cs, prepaid) <==> RunKeeps(b, cs)
    ensures RunKeeps(b, cs) ==> Balanced(Run(b, cs), prepaid + PrepaidOver(b, cs))
    decreases |cs|
  {
    hide Valid, Balanced, Step, Keeps, PrepaidIn;
    if cs != [] {
      var next, total := Step(b, cs[0]), prepaid + PrepaidIn(b, cs[0]);
      StepExact(b, cs[0], prepaid);
      if Keeps(b, cs[0]) {
        RunExact(next, cs[1..], total);
      } else {
        UnbalancedStops(next, cs[1..], total);
      }
    }
  }

  lemma UnbalancedStops(b: Book, cs: seq<Command>, prepaid: int)
    requires Valid(b) && !Balanced(b, prepaid)
    ensures !BalancedThroughout(b, cs, prepaid)
  {}

  lemma {:induction false} PrincipalFixed(b: Book, cs: seq<Command>)
    requires Valid(b)
    ensures Run(b, cs).loan.principal == b.loan.principal
    decreases |cs|
  {
    hide Valid;
    if cs != [] {
      StepExact(b, cs[0], 0);
      StepKeepsTerms(b, cs[0]);
      PrincipalFixed(Step(b, cs[0]), cs[1..]);
    }
  }

  lemma StepKeepsTerms(b: Book, c: Command)
    requires Valid(b)
    ensures Step(b, c).loan.principal == b.loan.principal && Step(b, c).loan.day == b.loan.day
    ensures Step(b, c).loan.start == b.loan.start
  {
    hide Calculation, Amortise;
  }

  // ---------------------------------------------------------------- rate changes after prepayments

  /** Prepaid since the last payment. */
  function PendingAfter(b: Book, c: Command, pending: int): int
    requires Valid(b)
  {
    if c.Pay? && PayResult(b, c.month).1.Paid? then 0 else pending + PrepaidIn(b, c)
  }

  /** While rows are unpaid, a rate change would restart above remaining_principal by what was
      prepaid since the last payment. */
  ghost predicate Tracks(b: Book, pending: int)
    requires Valid(b)
  {
    b.loan.paidMonths < |b.rows| ==> Restart(b) == b.loan.remaining + pending
  }

  lemma CreatedTracks(t: Terms)
    requires Acceptable(t) && ValidDate(t.start)
    ensures Valid(Created(t)) && Tracks(Created(t), 0)
  {
    CreatedBalanced(t);
  }

  lemma StepTracks(b: Book, c: Command, prepaid: int, pending: int)
    requires Valid(b) && Balanced(b, prepaid) && Keeps(b, c) && Tracks(b, pending)
    ensures Valid(Step(b, c)) && Tracks(Step(b, c), PendingAfter(b, c, pending))
  {
    hide Valid, Balanced, Amortise, Calculation, Closes, Restart, RateChanged, RateChangeItems, PayResult,
         PrepayResult, Prepaid;
    StepExact(b, c, prepaid);
    match c
    case Pay(month) =>
      PaymentIsNextRow(b, month);
      if PayResult(b, month).1.Paid? {
        NextPaidBalanced(b, prepaid);
      }
    case Prepay(amount, strategy) =>
      if PrepayResult(b, amount, strategy).Some? {
        PrepaymentKeeps(b, amount, strategy, prepaid);
        PrepaymentRestart(b, amount, strategy, prepaid);
      }
    case ChangeRate(newRate) =>
      if newRate > 0.0 {
        RateChangeKeeps(b, newRate, prepaid);
        RateChangeKeepsCounters(b, newRate);
        AllPaidOrNot(b);
      } else {
        RateRefused(b, newRate);
      }
  }

  lemma RateChangeKeepsCounters(b: Book, newRate: real)
    requires Valid(b) && newRate > 0.0
    ensures RateChanged(b, newRate).Some?
    ensures var after := RateChanged(b, newRate).value;
            && after.loan.paidMonths == b.loan.paidMonths && after.loan.remaining == b.loan.remaining
            && (b.loan.paidMonths == |b.rows| ==> after.rows == b.rows)
  {
    hide Amortise, Valid;
    RateChangeIsReschedule(b, newRate);
    AllPaidOrNot(b);
  }

  /** A prepayment never moves the row a rate change restarts from. */
  lemma PrepaymentRestart(b: Book, amount: int, strategy: Strategy, prepaid: int)
    requires Valid(b) && Balanced(b, prepaid) && PrepayResult(b, amount, strategy).Some?
    ensures var after := Prepaid(b, PrepayResult(b, amount, strategy).value);
            && after.loan.paidMonths == b.loan.paidMonths
            && b.loan.paidMonths < |b.rows|
            && (after.loan.paidMonths < |after.rows| ==> Restart(after) == Restart(b))
  {
    hide Calculation, ValidDate, Repays;
    PrepaymentKeeps(b, amount, strategy, prepaid);
    var paid, after := b.loan.paidMonths, Prepaid(b, PrepayResult(b, amount, strategy).value);
    assert b.loan.paidMonths < |b.rows|;
    NumberedQueries(b.rows, paid);
    SameRestart(b, after);
  }

  lemma SameRestart(b: Book, after: Book)
    requires Numbered(b.rows, b.loan.paidMonths) && Numbered(after.rows, b.loan.paidMonths)
    requires b.loan.paidMonths == after.loan.paidMonths && b.loan.principal == after.loan.principal
    requires 0 <= b.loan.paidMonths < |b.rows| && b.loan.paidMonths <= |after.rows|
    requires after.rows[..b.loan.paidMonths] == b.rows[..b.loan.paidMonths]
    ensures b.loan.paidMonths < |after.rows| ==> Restart(after) == Restart(b)
  {
    hide Numbered, Restart;
    var paid := b.loan.paidMonths;
    assert paid > 0 ==> after.rows[paid - 1] == after.rows[..paid][paid - 1] == b.rows[..paid][paid - 1];
    RestartOf(b);
    if paid < |after.rows| {
      RestartOf(after);
    }
  }

  /** A rate change restarts from the last paid row, or from the whole loan. */
  lemma RestartOf(b: Book)
    requires Numbered(b.rows, b.loan.paidMonths) && 0 <= b.loan.paidMonths < |b.rows|
    ensures Restart(b) == if b.loan.paidMonths == 0 then b.loan.principal
                          else b.rows[b.loan.paidMonths - 1].item.remaining
  {
    hide Numbered, MinUnpaid, FindRow;
    NumberedQueries(b.rows, b.loan.paidMonths);
    NumberedFind(b.rows, b.loan.paidMonths, b.loan.paidMonths);
  }

  /** So while rows are unpaid a rate change keeps the books balanced exactly when nothing was
      prepaid since the last payment and the new schedule closes. */
  lemma RateChangeNeedsNoPending(b: Book, newRate: real, prepaid: int, pending: int)
    requires Valid(b) && Balanced(b, prepaid) && Tracks(b, pending)
    requires newRate > 0.0 && b.loan.paidMonths < |b.rows|
    ensures Valid(Step(b, ChangeRate(newRate)))
    ensures Balanced(Step(b, ChangeRate(newRate)), prepaid) <==> pending == 0 && Closes(RateChangeItems(b, newRate))
  {
    hide Valid, Balanced, Closes, Restart, RateChangeItems;
    StepExact(b, ChangeRate(newRate), prepaid);
  }

  // ---------------------------------------------------------------- prepaying more

  /** Shortening a level loan: prepaying more never costs more months or more interest. */
  lemma PrepayingMoreNeverCosts(b: Book, less: int, more: int)
    requires Valid(b) && b.loan.plan == EqualInstallment && 0 < less <= more <= b.loan.remaining
    ensures PrepayResult(b, less, ReduceMonths).Some? && PrepayResult(b, more, ReduceMonths).Some?
    ensures var x, y := PrepayResult(b, less, ReduceMonths).value, PrepayResult(b, more, ReduceMonths).value;
            && y.newTotalMonths <= x.newTotalMonths
            && y.interestAfter <= x.interestAfter
            && y.interestSaved >= x.interestSaved
            && y.monthsReduced >= x.monthsReduced
  {
    hide ValidDate, KeptPayment, FixedFrom, RowInterest, PaidInterest, NextUnpaidDue, SumInterest, MonthlyRate,
         Numbered, FirstOfMonth;
    RowsHaveDueDates(b);
    NextUnpaidDueValid(b.rows, b.loan.start);
    RateOfLoan(b.loan.annualRate);
    var start := FirstOfMonth(NextUnpaidDue(b.rows, b.loan.start));
    var r, pay := MonthlyRate(b.loan.annualRate), KeptPayment(b.loan);
    var p, q := b.loan.remaining - more, b.loan.remaining - less;
    SmallerPrincipalDominates(p, q, r, pay, 0, b.loan.day, start);
    FixedRow(p, r, pay, 0, b.loan.day, start);
    FixedRow(q, r, pay, 0, b.loan.day, start);
  }
}
