/** Where due dates go when a loan is prepaid or repriced. */
module LoanCalendar {
  import opened Money
  import opened Calendar
  import opened Schedule
  import opened FixedPlan
  import opened LoanTables
  import opened LoanLifecycle
  import opened LoanRuns

  /** Row number i is due on the loan's own i-th payment date. */
  ghost predicate OnCalendar(b: Book)
    requires Valid(b)
  {
    forall i :: 0 <= i < |b.rows| ==> b.rows[i].item.due == DueDate(b.loan.start, i, b.loan.day)
  }

  lemma AmortiseDue(t: Terms)
    requires ValidTerms(t)
    ensures forall i :: 0 <= i < |Amortise(t)| ==> Amortise(t)[i].due == DueDate(t.start, i, t.day)
  {
    forall i | 0 <= i < |Amortise(t)|
      ensures Amortise(t)[i].due == DueDate(t.start, i, t.day)
    {
      hide Round, Interest, SimpleInterest, DueDate, MonthlyRate, Annuity;
      assert Amortise(t)[i] == ItemAt(t, i);
    }
  }

  lemma {:induction false} FixedDue(left: int, r: real, pay: int, i: nat, day: int, start: Date)
    requires ValidDate(start) && day >= 1
    ensures forall k :: 0 <= k < |FixedFrom(left, r, pay, i, day, start)| ==>
              FixedFrom(left, r, pay, i, day, start)[k].due == DueDate(start, i + k, day)
    decreases MONTH_CAP - i
  {
    hide Interest, DueDate, ValidDate;
    if left > 0 && i < MONTH_CAP && MonthPart(left, r, pay) < left {
      FixedDue(left - MonthPart(left, r, pay), r, pay, i + 1, day, start);
    }
  }

  lemma RegrownOnCalendar(rows: seq<Row>, paid: nat, items: seq<Item>, start: Date, day: int)
    requires Numbered(rows, paid) && paid < |rows| && ValidDate(start) && day >= 2
    requires forall i :: 0 <= i < |rows| ==> rows[i].item.due == DueDate(start, i, day)
    requires forall i :: 0 <= i < |items| ==> items[i].due == DueDate(FirstOfMonth(rows[paid].item.due), i, day)
    ensures var regrown := DropUnpaid(rows) + NewRows(items, paid + 1);
            forall i :: 0 <= i < |regrown| ==> regrown[i].item.due == DueDate(start, i, day)
  {
    hide DueDate;
    NumberedQueries(rows, paid);
    forall i | 0 <= i < |items|
      ensures items[i].due == DueDate(start, paid + i, day)
    {
      RegeneratedDueDate(start, paid, i, day);
    }
  }

  lemma {:induction false} NextUnpaidDueIs(rows: seq<Row>, paid: nat, fallback: Date)
    requires paid < |rows| && forall i :: 0 <= i < |rows| ==> (rows[i].paid <==> i < paid)
    ensures NextUnpaidDue(rows, fallback) == rows[paid].item.due
  {
    if paid > 0 {
      NextUnpaidDueIs(rows[1..], paid - 1, fallback);
    }
  }

  lemma NewScheduleDue(loan: Loan, newPrincipal: int, start: Date, strategy: Strategy)
    requires CanRegenerate(loan) && ValidDate(start)
    ensures var items := NewSchedule(loan, newPrincipal, start, strategy);
            items.Some? ==> forall i :: 0 <= i < |items.value| ==> items.value[i].due == DueDate(start, i, loan.day)
  {
    hide Round, Interest, ValidDate, DueDate, DueMonth, Annuity, Ceil, Amortise, FixedFrom;
    RateOfLoan(loan.annualRate);
    if newPrincipal > 0 {
      if strategy == ReduceMonths && loan.plan == EqualInstallment {
        var r := MonthlyRate(loan.annualRate);
        FixedDue(newPrincipal, r, Round(Annuity(loan.principal, r, loan.totalMonths)), 0, loan.day, start);
      } else {
        var part := Round(loan.principal as real / loan.totalMonths as real);
        var months := if strategy == ReduceMonths && loan.plan == EqualPrincipal then EvenMonths(newPrincipal, part)
                      else loan.totalMonths - loan.paidMonths;
        AmortiseDue(RegeneratedTerms(loan, newPrincipal, months, start));
      }
    }
  }

  lemma PrepaymentKeepsCalendar(b: Book, amount: int, strategy: Strategy)
    requires Valid(b) && OnCalendar(b) && b.loan.day >= 2 && b.loan.paidMonths < |b.rows|
    requires PrepayResult(b, amount, strategy).Some?
    ensures var after := Prepaid(b, PrepayResult(b, amount, strategy).value);
            forall i :: 0 <= i < |after.rows| ==> after.rows[i].item.due == DueDate(b.loan.start, i, b.loan.day)
  {
    hide DueDate, ValidDate, NewSchedule;
    RowsHaveDueDates(b);
    NextUnpaidDueValid(b.rows, b.loan.start);
    NextUnpaidDueIs(b.rows, b.loan.paidMonths, b.loan.start);
    var items := PrepayResult(b, amount, strategy).value.newSchedule;
    NewScheduleDue(b.loan, b.loan.remaining - amount, FirstOfMonth(NextUnpaidDue(b.rows, b.loan.start)), strategy);
    RegrownOnCalendar(b.rows, b.loan.paidMonths, items, b.loan.start, b.loan.day);
  }

  lemma RateChangeKeepsCalendar(b: Book, newRate: real)
    requires Valid(b) && OnCalendar(b) && b.loan.day >= 2 && b.loan.paidMonths < |b.rows| && newRate > 0.0
    ensures var after := Rescheduled(b, newRate);
            forall i :: 0 <= i < |after.rows| ==> after.rows[i].item.due == DueDate(b.loan.start, i, b.loan.day)
  {
    AmortiseDue(RateChangeTerms(b, newRate));
    NumberedQueries(b.rows, b.loan.paidMonths);
    hide DueDate, ValidDate, Amortise;
    RegrownOnCalendar(b.rows, b.loan.paidMonths, RateChangeItems(b, newRate), b.loan.start, b.loan.day);
  }

  /** With a payment day from 2 to 28, every step keeps every row on its own payment date. */
  lemma StepKeepsCalendar(b: Book, c: Command)
    requires Valid(b) && OnCalendar(b) && b.loan.day >= 2
    requires c.Prepay? ==> b.loan.paidMonths < |b.rows|
    ensures Valid(Step(b, c)) && OnCalendar(Step(b, c))
  {
    StepExact(b, c, 0);
    StepKeepsTerms(b, c);
    hide Valid, DueDate, Amortise, PrepayResult, Prepaid, RateChanged, PayResult, Rescheduled;
    AllPaidOrNot(b);
    match c
    case Pay(month) => PaymentIsNextRow(b, month);
    case Prepay(amount, strategy) =>
      if PrepayResult(b, amount, strategy).Some? {
        PrepaymentKeepsCalendar(b, amount, strategy);
      }
    case ChangeRate(newRate) =>
      if newRate > 0.0 {
        RateChangeIsReschedule(b, newRate);
        if b.loan.paidMonths < |b.rows| {
          RateChangeKeepsCalendar(b, newRate);
        }
      } else {
        RateRefused(b, newRate);
      }
  }

  /** Over a run that keeps the books balanced every row stays on its own payment date. */
  lemma {:induction false} RunKeepsCalendar(b: Book, cs: seq<Command>, prepaid: int)
    requires Valid(b) && Balanced(b, prepaid) && OnCalendar(b) && b.loan.day >= 2 && RunKeeps(b, cs)
    ensures OnCalendar(Run(b, cs))
    decreases |cs|
  {
    hide Valid, Balanced, OnCalendar, Step, Keeps, PrepaidIn;
    if cs != [] {
      StepExact(b, cs[0], prepaid);
      StepKeepsTerms(b, cs[0]);
      BalancedStepKeepsCalendar(b, cs[0], prepaid);
      RunKeepsCalendar(Step(b, cs[0]), cs[1..], prepaid + PrepaidIn(b, cs[0]));
    }
  }

  /** While the books balance a prepayment is only accepted with a row left to pay. */
  lemma BalancedStepKeepsCalendar(b: Book, c: Command, prepaid: int)
    requires Valid(b) && Balanced(b, prepaid) && OnCalendar(b) && b.loan.day >= 2
    ensures Valid(Step(b, c)) && OnCalendar(Step(b, c))
  {
    hide Valid, Balanced, OnCalendar, PrepayResult, PayResult, Prepaid, RateChanged;
    StepExact(b, c, prepaid);
    if c.Prepay? && PrepayResult(b, c.amount, c.strategy).Some? {
      PrepaymentRestart(b, c.amount, c.strategy, prepaid);
      StepKeepsCalendar(b, c);
    } else if !c.Prepay? {
      StepKeepsCalendar(b, c);
    }
  }

  lemma CreatedOnCalendar(t: Terms)
    requires Acceptable(t) && ValidDate(t.start)
    ensures Valid(Created(t)) && OnCalendar(Created(t))
  {
    hide DueDate, ValidDate, Amortise;
    CreatedBalanced(t);
    AmortiseDue(t);
  }

  /** The life of a loan with a payment day from 2 to 28: whatever is prepaid or repriced, month i is due on
      the i-th payment date after the start. */
  lemma LifeOnCalendar(t: Terms, cs: seq<Command>)
    requires Acceptable(t) && ValidDate(t.start) && t.day >= 2
    ensures Valid(Created(t))
    ensures BalancedThroughout(Created(t), cs, 0) ==> OnCalendar(Run(Created(t), cs))
  {
    hide OnCalendar, Run, RunKeeps, Amortise, ValidDate, Balanced;
    CreatedBalanced(t);
    CreatedOnCalendar(t);
    if BalancedThroughout(Created(t), cs, 0) {
      RunExact(Created(t), cs, 0);
      RunKeepsCalendar(Created(t), cs, 0);
    }
  }
}
