/** The loan RPCs as they write: the loan row and its schedule rows, updated in place. */
module LoanService {
  import opened Money
  import opened Calendar
  import opened Schedule
  import opened Amortization
  import opened FixedPlan
  import opened LoanTables
  import opened LoanLifecycle
  import opened Wrappers

  /** The first unpaid row's due date, or the fallback. */
  method FindNextUnpaidDueDate(rows: seq<Row>, fallback: Date) returns (due: Date)
    ensures due == NextUnpaidDue(rows, fallback)
  {
    var i := 0;
    while i < |rows|
      invariant 0 <= i <= |rows|
      invariant NextUnpaidDue(rows, fallback) == NextUnpaidDue(rows[i..], fallback)
    {
      if !rows[i].paid {
        return rows[i].item.due;
      }
      assert rows[i..][1..] == rows[i + 1..];
      i := i + 1;
    }
    return fallback;
  }

  method TotalInterest(rows: seq<Row>) returns (all: int, paid: int)
    ensures all == RowInterest(rows) && paid == PaidInterest(rows)
  {
    all, paid := 0, 0;
    for i := 0 to |rows|
      invariant all == RowInterest(rows[..i]) && paid == PaidInterest(rows[..i])
    {
      assert rows[..i + 1][..i] == rows[..i];
      all := all + rows[i].item.interest;
      if rows[i].paid {
        paid := paid + rows[i].item.interest;
      }
    }
    assert rows[..|rows|] == rows;
  }

  method ScheduleInterest(items: seq<Item>) returns (total: int)
    ensures total == SumInterest(items)
  {
    total := 0;
    for i := 0 to |items|
      invariant total == SumInterest(items[..i])
    {
      assert items[..i + 1][..i] == items[..i];
      total := total + items[i].interest;
    }
    assert items[..|items|] == items;
  }

  method CalcReduceMonths(loan: Loan, newPrincipal: int, start: Date) returns (items: Option<seq<Item>>)
    requires CanRegenerate(loan) && ValidDate(start)
    ensures items == ShorterSchedule(loan, newPrincipal, start)
  {
    hide Round, Annuity, Amortise, FixedFrom, Ceil, ValidDate;
    RateOfLoan(loan.annualRate);
    match loan.plan {
      case EqualInstallment =>
        var pay := Round(Annuity(loan.principal, MonthlyRate(loan.annualRate), loan.totalMonths));
        var fixed := GenerateWithFixedPayment(newPrincipal, loan.annualRate, pay, loan.day, start);
        return Some(fixed);
      case InterestOnly | Bullet =>
        var schedule := GenerateSchedule(RegeneratedTerms(loan, newPrincipal, loan.totalMonths - loan.paidMonths,
                                                          start));
        return Some(schedule);
      case EqualPrincipal =>
        var part := Round(loan.principal as real / loan.totalMonths as real);
        var schedule := GenerateSchedule(RegeneratedTerms(loan, newPrincipal, EvenMonths(newPrincipal, part), start));
        return Some(schedule);
      case EqualInterest =>
        return None;
    }
  }

  method CalcPrepaymentSchedule(loan: Loan, rows: seq<Row>, amount: int, strategy: Strategy)
    returns (result: Option<PrepayCalc>)
    requires CanRegenerate(loan) && ValidDate(loan.start) && forall row :: row in rows ==> ValidDate(row.item.due)
    ensures result == Calculation(loan, rows, amount, strategy)
  {
    hide ShorterSchedule, Amortise, ValidDate, RowInterest, PaidInterest, SumInterest, NextUnpaidDue;
    var totalBefore, paidInterest := TotalInterest(rows);
    var newPrincipal := loan.remaining - amount;
    var remainingMonths := loan.totalMonths - loan.paidMonths;
    var nextDueDate := FindNextUnpaidDueDate(rows, loan.start);
    nextDueDate := FirstOfMonth(nextDueDate);
    NextUnpaidDueValid(rows, loan.start);
    var newSchedule, newTotalMonths := [], loan.totalMonths;
    if newPrincipal <= 0 {
      newTotalMonths := loan.paidMonths;
      newPrincipal := 0;
    } else if strategy == ReduceMonths {
      var shorter := CalcReduceMonths(loan, newPrincipal, nextDueDate);
      if shorter.None? {
        return None;
      }
      newSchedule := shorter.value;
      newTotalMonths := loan.paidMonths + |newSchedule|;
    } else {
      newSchedule := GenerateSchedule(RegeneratedTerms(loan, newPrincipal, remainingMonths, nextDueDate));
    }
    var newInterest := ScheduleInterest(newSchedule);
    var totalAfter := paidInterest + newInterest;
    var saved := totalBefore - totalAfter;
    if saved < 0 {
      saved := 0;
    }
    var monthsReduced := remainingMonths - |newSchedule|;
    if monthsReduced < 0 {
      monthsReduced := 0;
    }
    var display := 0;
    if |newSchedule| > 0 {
      display := newSchedule[0].payment;
    }
    result := Some(PrepayCalc(newSchedule, newPrincipal, newTotalMonths, totalBefore, totalAfter, saved,
                              monthsReduced, display));
  }

  lemma RefusedRate(b: Book, newRate: real)
    requires Valid(b) && newRate <= 0.0
    ensures RateChanged(b, newRate) == None
  {}

  /** The statements of an accepted rate change. */
  lemma RateChangeWrites(b: Book, newRate: real)
    requires Valid(b) && newRate > 0.0
    ensures RateChanged(b, newRate).Some? && Valid(RateChanged(b, newRate).value)
    ensures var loan, next := b.loan.(annualRate := newRate), MinUnpaid(b.rows);
            if next == 0 then RateChanged(b, newRate) == Some(Book(loan, b.rows))
            else
              var restart, first := RestartPrincipal(b, next), FindRow(b.rows, next);
              restart.Some? && first.Some?
              && var t := RegeneratedTerms(loan, restart.value, loan.totalMonths - next + 1,
                                           FirstOfMonth(first.value.item.due));
                 ValidTerms(t)
                 && RateChanged(b, newRate) == Some(Book(loan, DropUnpaid(b.rows) + NewRows(Amortise(t), next)))
  {
    hide Balanced, Closes, Restart, RateChangeItems, NewRows, Rescheduled, Numbered, ValidDate;
    hide Amortise, DropUnpaid, FindRow, MinUnpaid, RestartPrincipal, FirstOfMonth;
    RateChangeKeeps(b, newRate, 0);
    RateChangeIsReschedule(b, newRate);
    FoundDueValid(b, MinUnpaid(b.rows));
  }

  class LoanBook {
    var loan: Loan
    var rows: seq<Row>

    ghost function Value(): Book
      reads this
    {
      Book(loan, rows)
    }

    /** CreateLoan, for a request that passed validation. */
    constructor (t: Terms)
      requires Acceptable(t) && ValidDate(t.start)
      ensures Value() == Created(t) && Valid(Value())
      ensures Balanced(Value(), 0) <==> Closes(Amortise(t))
    {
      var items := GenerateSchedule(t);
      loan := Loan(t.principal, t.principal, t.annualRate, t.months, 0, t.plan, t.day, t.accrual, t.start);
      rows := NewRows(items, 1);
      new;
      CreatedBalanced(t);
    }

    /** The INSERT loop shared by prepayments and rate changes. */
    method InsertRows(items: seq<Item>, first: int)
      modifies this`rows
      ensures rows == old(rows) + NewRows(items, first)
    {
      for i := 0 to |items|
        invariant rows == old(rows) + NewRows(items, first)[..i]
      {
        rows := rows + [Row(first + i, items[i], false)];
      }
    }

    /** DELETE ... WHERE is_paid = false, then the INSERT loop. */
    method ReplaceUnpaid(items: seq<Item>, first: int)
      modifies this`rows
      ensures rows == DropUnpaid(old(rows)) + NewRows(items, first)
    {
      rows := DropUnpaid(rows);
      InsertRows(items, first);
    }

    method RecordPayment(month: int) returns (reply: PayReply)
      requires Valid(Value())
      modifies this
      ensures (Value(), reply) == PayResult(old(Value()), month)
      ensures Valid(Value())
      ensures forall prepaid :: old(Balanced(Value(), prepaid)) ==> Balanced(Value(), prepaid)
    {
      ghost var before := Value();
      PaymentKeeps(before, month, 0);
      forall prepaid
        ensures Balanced(before, prepaid) ==> Balanced(PayResult(before, month).0, prepaid)
      {
        PaymentKeeps(before, month, prepaid);
      }
      hide Valid, Balanced, MinUnpaid, FindRow, MarkPaid, CountPaid;
      if month <= 0 {
        return InvalidMonth;
      }
      var nextUnpaid := MinUnpaid(rows);
      var row := FindRow(rows, month);
      if nextUnpaid == 0 || month != nextUnpaid {
        if row.Some? && row.value.paid {
          return AlreadyPaid(row.value.item);
        }
        if nextUnpaid == 0 {
          return AllCompleted;
        }
        return OutOfSequence(nextUnpaid);
      }
      if row.None? {
        return InvalidMonth;
      }
      rows := MarkPaid(rows, month);
      loan := loan.(paidMonths := CountPaid(rows), remaining := row.value.item.remaining);
      reply := Paid(row.value.item);
    }

    method ExecutePrepayment(amount: int, strategy: Strategy) returns (result: Option<PrepayCalc>)
      requires Valid(Value())
      modifies this
      ensures result == PrepayResult(old(Value()), amount, strategy)
      ensures Value() == if result.Some? then Prepaid(old(Value()), result.value) else old(Value())
      ensures Valid(Value())
    {
      hide ValidDate, Numbered, DropUnpaid, Calculation, NewRows;
      ghost var before := Value();
      if amount <= 0 || amount > loan.remaining {
        return None;
      }
      RowsHaveDueDates(before);
      result := CalcPrepaymentSchedule(loan, rows, amount, strategy);
      if result.None? {
        return;
      }
      PrepaymentKeeps(before, amount, strategy, 0);
      loan := loan.(remaining := result.value.newPrincipal, totalMonths := result.value.newTotalMonths);
      ReplaceUnpaid(result.value.newSchedule, loan.paidMonths + 1);
    }

    method RecordRateChange(newRate: real) returns (ok: bool)
      requires Valid(Value())
      modifies this
      ensures ok <==> newRate > 0.0
      ensures RateChanged(old(Value()), newRate) == if ok then Some(Value()) else None
      ensures !ok ==> Value() == old(Value())
      ensures Valid(Value())
    {
      hide Valid, ValidTerms, RateChanged, Amortise, DropUnpaid, NewRows, FindRow, MinUnpaid, RestartPrincipal;
      hide RegeneratedTerms, FirstOfMonth;
      if newRate <= 0.0 {
        RefusedRate(Value(), newRate);
        return false;
      }
      RateChangeWrites(Value(), newRate);
      var next := MinUnpaid(rows);
      var restart, first := RestartPrincipal(Book(loan, rows), next), FindRow(rows, next);
      loan := loan.(annualRate := newRate);
      if next == 0 {
        return true;
      }
      var items := GenerateSchedule(RegeneratedTerms(loan, restart.value, loan.totalMonths - next + 1,
                                                     FirstOfMonth(first.value.item.due)));
      ReplaceUnpaid(items, next);
      return true;
    }
  }
}
