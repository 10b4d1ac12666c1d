/** The bookkeeping of a loan over every run of payments, prepayments and rate changes. */
module LoanLifecycle {
  import opened Money
  import opened Calendar
  import opened Schedule
  import opened Amortization
  import opened FixedPlan
  import opened LoanTables
  import opened Wrappers

  function Items(rows: seq<Row>): (items: seq<Item>)
    ensures |items| == |rows|
  {
    seq(|rows|, i requires 0 <= i < |rows| => rows[i].item)
  }

  function PaidItems(b: Book): seq<Item>
    requires Valid(b)
  {
    Items(b.rows[..b.loan.paidMonths])
  }

  function UnpaidItems(b: Book): seq<Item>
    requires Valid(b)
  {
    Items(b.rows[b.loan.paidMonths..])
  }

  /** The books balance: rows fill months 1..total_months, the unpaid ones repay remaining_principal
      row by row, and the original principal is what was repaid, prepaid or is still owed. */
  ghost predicate Balanced(b: Book, prepaid: int) {
    && Valid(b)
    && |b.rows| == b.loan.totalMonths
    && Owes(UnpaidItems(b), b.loan.remaining)
    && b.loan.principal == SumPrincipal(PaidItems(b)) + prepaid + b.loan.remaining
  }

  ghost predicate Owes(items: seq<Item>, remaining: int) {
    if items == [] then remaining == 0 else Repays(items, remaining)
  }

  // ---------------------------------------------------------------- SQL over numbered rows

  lemma {:induction false} NumberedQueries(rows: seq<Row>, paid: nat)
    requires Numbered(rows, paid) && paid <= |rows|
    ensures MinUnpaid(rows) == if paid < |rows| then paid + 1 else 0
    ensures DropUnpaid(rows) == rows[..paid]
    ensures CountPaid(rows) == paid
  {
    if rows != [] {
      var before := rows[..|rows| - 1];
      if paid == |rows| {
        NumberedQueries(before, paid - 1);
        assert rows[..paid] == before[..paid - 1] + [rows[|rows| - 1]];
      } else {
        NumberedQueries(before, paid);
        assert before[..paid] == rows[..paid];
      }
    }
  }

  lemma {:induction false} NumberedFind(rows: seq<Row>, paid: int, month: int)
    requires Numbered(rows, paid)
    ensures FindRow(rows, month) == if 1 <= month <= |rows| then Some(rows[month - 1]) else None
  {
    if rows != [] {
      NumberedFind(rows[..|rows| - 1], paid, month);
    }
  }

  lemma NumberedMark(rows: seq<Row>, paid: nat)
    requires Numbered(rows, paid) && paid < |rows|
    ensures MarkPaid(rows, paid + 1) == rows[paid := rows[paid].(paid := true)]
    ensures Numbered(MarkPaid(rows, paid + 1), paid + 1)
  {}

  lemma NumberedRegrow(rows: seq<Row>, paid: nat, items: seq<Item>)
    requires Numbered(rows, paid) && paid <= |rows|
    requires forall i :: 0 <= i < |items| ==> ValidDate(items[i].due)
    ensures var regrown := DropUnpaid(rows) + NewRows(items, paid + 1);
            && |regrown| == paid + |items|
            && Numbered(regrown, paid)
            && regrown[..paid] == rows[..paid]
            && Items(regrown[paid..]) == items
  {
    hide ValidDate;
    NumberedQueries(rows, paid);
    var regrown := DropUnpaid(rows) + NewRows(items, paid + 1);
    assert regrown[paid..] == NewRows(items, paid + 1);
  }

  // ---------------------------------------------------------------- what the generators hand over

  /** Due dates of generated rows are real dates. */
  lemma GeneratedDates(t: Terms)
    requires ValidTerms(t)
    ensures forall i :: 0 <= i < |Amortise(t)| ==> ValidDate(Amortise(t)[i].due)
  {
    forall i | 0 <= i < |Amortise(t)|
      ensures ValidDate(Amortise(t)[i].due)
    {
      hide Round, Interest, SimpleInterest, DueDate, MonthlyRate, Annuity;
      assert Amortise(t)[i] == ItemAt(t, i);
      DueMonthInRange(t, i);
    }
  }

  lemma {:induction false} FixedDates(left: int, r: real, pay: int, i: nat, day: int, start: Date)
    requires ValidDate(start) && day >= 1
    ensures forall k :: 0 <= k < |FixedFrom(left, r, pay, i, day, start)| ==>
              ValidDate(FixedFrom(left, r, pay, i, day, start)[k].due)
    decreases MONTH_CAP - i
  {
    hide Interest, DueDate, ValidDate, DueMonth;
    DueMonthAfterYearZero(start, i, day);
    if left > 0 && i < MONTH_CAP && MonthPart(left, r, pay) < left {
      FixedDates(left - MonthPart(left, r, pay), r, pay, i + 1, day, start);
    }
  }

  /** Every schedule a prepayment can install repays the new principal exactly when its last row closes;
      shortened even plans always do. */
  lemma NewScheduleRepays(loan: Loan, newPrincipal: int, start: Date, strategy: Strategy)
    requires CanRegenerate(loan) && ValidDate(start) && newPrincipal > 0 && loan.principal > 0
    requires NewSchedule(loan, newPrincipal, start, strategy).Some?
    ensures var items := NewSchedule(loan, newPrincipal, start, strategy).value;
            && (forall i :: 0 <= i < |items| ==> ValidDate(items[i].due))
            && (Repays(items, newPrincipal) <==> Closes(items))
    ensures strategy == ReduceMonths && (loan.plan == EqualInstallment || loan.plan == EqualPrincipal) ==>
              NewSchedule(loan, newPrincipal, start, strategy).value != []
    ensures strategy == ReduceMonths && loan.plan == EqualPrincipal ==>
              Closes(NewSchedule(loan, newPrincipal, start, strategy).value)
    ensures !(strategy == ReduceMonths && (loan.plan == EqualInstallment || loan.plan == EqualPrincipal)) ==>
              |NewSchedule(loan, newPrincipal, start, strategy).value|
              == AtLeastZero(loan.totalMonths - loan.paidMonths)
  {
    hide Round, Interest, ValidDate, Annuity, Ceil;
    RateOfLoan(loan.annualRate);
    if strategy == ReduceMonths && loan.plan == EqualInstallment {
      var r := MonthlyRate(loan.annualRate);
      var pay := Round(Annuity(loan.principal, r, loan.totalMonths));
      FixedRepaysIffCloses(newPrincipal, r, pay, loan.day, start);
      FixedDates(newPrincipal, r, pay, 0, loan.day, start);
    } else {
      var part := Round(loan.principal as real / loan.totalMonths as real);
      var months := if strategy == ReduceMonths && loan.plan == EqualPrincipal then EvenMonths(newPrincipal, part)
                    else loan.totalMonths - loan.paidMonths;
      var t := RegeneratedTerms(loan, newPrincipal, months, start);
      GeneratedDates(t);
      if months > 0 {
        RepaysIffCloses(t);
      }
      if strategy == ReduceMonths && loan.plan == EqualPrincipal {
        EvenMonthsClose(t, loan.principal, loan.totalMonths);
      }
    }
  }

  /** Cutting an even loan to the months its original part needs always leaves a positive last part. */
  lemma EvenMonthsClose(t: Terms, original: int, originalMonths: int)
    requires ValidTerms(t) && t.principal > 0 && t.plan == EqualPrincipal && original > 0 && originalMonths > 0
    requires t.months == EvenMonths(t.principal, Round(original as real / originalMonths as real))
    ensures Closes(Amortise(t))
  {
    hide Round, Interest, DueDate, ValidDate, MonthlyRate, Ceil;
    var part := Round(original as real / originalMonths as real);
    ShareNonNegative(original, originalMonths);
    assert Amortise(t)[t.months - 1] == ItemAt(t, t.months - 1);
    PaidStep(t, t.months - 1);
    hide Amortise, ItemAt;
    if part > 0 {
      CeilOfParts(t.principal, part);
      EvenPartAtMost(t, part);
      IntMulMonotone(t.months - 1, EvenPart(t), part);
    }
  }

  lemma ShareNonNegative(p: int, n: int)
    requires p > 0 && n > 0
    ensures Round(p as real / n as real) >= 0
  {
    DivMonotone(0.0, p as real, n as real);
  }

  /** ceil(p / part) months of `part` just cover p. */
  lemma CeilOfParts(p: int, part: int)
    requires p > 0 && part > 0
    ensures var n := Ceil(p as real / part as real);
            n >= 1 && (n - 1) * part < p <= n * part
  {
    var q := p as real / part as real;
    var n := Ceil(q);
    CeilBounds(q);
    QuotientBack(p as real, part as real);
    hide Ceil;
    Scaled(q, part as real, p as real, (n - 1) as real, n as real);
    ProductAsReal(n, part);
    ProductAsReal(n - 1, part);
  }

  lemma CeilBounds(q: real)
    ensures (Ceil(q) - 1) as real < q <= Ceil(q) as real
  {}

  lemma QuotientBack(p: real, size: real)
    requires p > 0.0 && size > 0.0
    ensures p / size * size == p && p / size > 0.0
  {}

  lemma Scaled(q: real, size: real, p: real, below: real, above: real)
    requires q * size == p && size > 0.0 && below < q <= above
    ensures below * size < p <= above * size
  {
    MulLeft(size, q, above);
    assert (q - below) * size > 0.0;
  }

  lemma EvenPartAtMost(t: Terms, part: int)
    requires Generates(t) && part > 0 && t.principal <= t.months * part
    ensures EvenPart(t) <= part
  {
    hide Round;
    var n := t.months as real;
    ProductAsReal(t.months, part);
    DivMonotone(t.principal as real, n * part as real, n);
    assert n * part as real / n == part as real;
    RoundMonotone(t.principal as real / n, part as real);
    RoundExact(part);
  }

  // ---------------------------------------------------------------- creation

  /** A book of unpaid rows, one for each month. */
  lemma FreshBook(loan: Loan, items: seq<Item>)
    requires loan.principal > 0 && loan.annualRate >= 0.0 && 1 <= loan.day <= 28 && ValidDate(loan.start)
    requires loan.paidMonths == 0 && loan.remaining == loan.principal && loan.totalMonths == |items| > 0
    requires forall i :: 0 <= i < |items| ==> ValidDate(items[i].due)
    ensures var b := Book(loan, NewRows(items, 1));
            Valid(b) && (Balanced(b, 0) <==> Owes(items, loan.remaining)) && Restart(b) == loan.remaining
  {
    hide Owes, ValidDate;
    var b := Book(loan, NewRows(items, 1));
    assert Valid(b);
    assert UnpaidItems(b) == items && PaidItems(b) == [];
    NumberedQueries(b.rows, 0);
  }

  /** A new loan is numbered, and balances exactly when its schedule closes. */
  lemma CreatedBalanced(t: Terms)
    requires Acceptable(t) && ValidDate(t.start)
    ensures Valid(Created(t))
    ensures Balanced(Created(t), 0) <==> Closes(Amortise(t))
    ensures Restart(Created(t)) == Created(t).loan.remaining
  {
    hide Repays, Closes, Balanced, Restart;
    GeneratedDates(t);
    Conserves(t);
    RepaysIffCloses(t);
    hide Amortise, ValidDate;
    FreshBook(Created(t).loan, Amortise(t));
  }

  // ---------------------------------------------------------------- payments

  /** What remains of a repaying schedule after its first row repays the rest. */
  lemma RepaysTail(items: seq<Item>, owed: int)
    requires Repays(items, owed)
    ensures items[0].remaining == owed - items[0].principal
    ensures Owes(items[1..], items[0].remaining)
  {
    hide SumPrincipal;
    var x, rest := items[0], items[1..];
    assert items == [x] + rest;
    SplitSum(x, rest, 0);
    SplitSum(x, rest, |rest|);
    assert items[..|rest| + 1] == items && rest[..|rest|] == rest;
    forall k | 0 <= k < |rest|
      ensures rest[k].remaining == x.remaining - SumPrincipal(rest[..k + 1])
      ensures k < |rest| - 1 ==> rest[k].remaining > 0
    {
      SplitSum(x, rest, k + 1);
      assert rest[k] == items[k + 1];
    }
  }

  lemma SplitSum(x: Item, rest: seq<Item>, k: nat)
    requires k <= |rest|
    ensures SumPrincipal(([x] + rest)[..k + 1]) == x.principal + SumPrincipal(rest[..k])
    ensures SumPrincipal(rest[..0]) == 0
  {
    FirstRow(x, rest, k);
  }

  /** The book after paying its next row. */
  function NextPaid(b: Book): Book
    requires Valid(b) && b.loan.paidMonths < |b.rows|
  {
    var paid, row := b.loan.paidMonths, b.rows[b.loan.paidMonths];
    Book(b.loan.(paidMonths := paid + 1, remaining := row.item.remaining), b.rows[paid := row.(paid := true)])
  }

  lemma PaymentIsNextRow(b: Book, month: int)
    requires Valid(b)
    ensures PayResult(b, month).1.Paid? <==> month == b.loan.paidMonths + 1 && month <= |b.rows|
    ensures PayResult(b, month).1.AlreadyPaid? <==> 1 <= month <= b.loan.paidMonths
    ensures PayResult(b, month).0 == if PayResult(b, month).1.Paid? then NextPaid(b) else b
  {
    hide ValidDate;
    var paid, rows := b.loan.paidMonths, b.rows;
    NumberedQueries(rows, paid);
    NumberedFind(rows, paid, month);
    if month == paid + 1 <= |rows| {
      NumberedMark(rows, paid);
      NumberedQueries(MarkPaid(rows, month), paid + 1);
    }
  }

  lemma NextPaidBalanced(b: Book, prepaid: int)
    requires Valid(b) && b.loan.paidMonths < |b.rows|
    ensures Valid(NextPaid(b)) && Restart(NextPaid(b)) == NextPaid(b).loan.remaining
    ensures Balanced(b, prepaid) ==> Balanced(NextPaid(b), prepaid)
  {
    hide ValidDate, Owes;
    var after, paid := NextPaid(b), b.loan.paidMonths;
    assert Numbered(after.rows, paid + 1);
    NumberedQueries(after.rows, paid + 1);
    NumberedFind(after.rows, paid + 1, paid + 1);
    assert Valid(after);
    if Balanced(b, prepaid) {
      PaidMoves(b);
    }
  }

  lemma PaidMoves(b: Book)
    requires Valid(b) && b.loan.paidMonths < |b.rows| && Owes(UnpaidItems(b), b.loan.remaining)
    requires Valid(NextPaid(b))
    ensures Owes(UnpaidItems(NextPaid(b)), NextPaid(b).loan.remaining)
    ensures SumPrincipal(PaidItems(NextPaid(b))) + NextPaid(b).loan.remaining
            == SumPrincipal(PaidItems(b)) + b.loan.remaining
  {
    hide ValidDate, Numbered, Repays;
    var after, paid := NextPaid(b), b.loan.paidMonths;
    RepaysTail(UnpaidItems(b), b.loan.remaining);
    hide Owes;
    assert UnpaidItems(b)[1..] == UnpaidItems(after);
    assert PaidItems(after)[..paid] == PaidItems(b);
    SumStep(PaidItems(after), paid);
    assert PaidItems(after)[..paid + 1] == PaidItems(after);
  }

  /** Paying the next row keeps the numbering, and keeps the books balanced if they were;
      every other request changes nothing. */
  lemma PaymentKeeps(b: Book, month: int, prepaid: int)
    requires Valid(b)
    ensures var after := PayResult(b, month).0;
            && Valid(after)
            && (Balanced(b, prepaid) ==> Balanced(after, prepaid))
            && (after != b ==> Restart(after) == after.loan.remaining)
  {
    hide PayResult, Valid, Balanced, Restart, NextPaid;
    PaymentIsNextRow(b, month);
    if PayResult(b, month).1.Paid? {
      NextPaidBalanced(b, prepaid);
    }
  }

  // ---------------------------------------------------------------- prepayments

  /** What an accepted prepayment installs. */
  lemma PrepaymentItems(b: Book, amount: int, strategy: Strategy)
    requires Valid(b) && PrepayResult(b, amount, strategy).Some?
    ensures var result := PrepayResult(b, amount, strategy).value;
            var items := result.newSchedule;
            && result.newPrincipal == b.loan.remaining - amount >= 0
            && result.newTotalMonths == b.loan.paidMonths + |items|
            && (forall i :: 0 <= i < |items| ==> ValidDate(items[i].due))
            && (if result.newPrincipal == 0 then items == [] else Repays(items, result.newPrincipal) <==> Closes(items))
            && (items == [] && result.newPrincipal > 0 ==> b.loan.paidMonths == b.loan.totalMonths > 0)
  {
    hide ValidDate, Closes, ShorterSchedule, Repays, Numbered;
    RowsHaveDueDates(b);
    NextUnpaidDueValid(b.rows, b.loan.start);
    var newPrincipal := b.loan.remaining - amount;
    if newPrincipal > 0 {
      NewScheduleRepays(b.loan, newPrincipal, FirstOfMonth(NextUnpaidDue(b.rows, b.loan.start)), strategy);
    }
  }

  /** An accepted prepayment keeps the numbering. It keeps the books balanced exactly when
      it repays everything or the schedule it installs closes. */
  lemma PrepaymentKeeps(b: Book, amount: int, strategy: Strategy, prepaid: int)
    requires Valid(b) && PrepayResult(b, amount, strategy).Some?
    ensures var result := PrepayResult(b, amount, strategy).value;
            var after := Prepaid(b, result);
            && Valid(after)
            && after.loan.remaining == b.loan.remaining - amount
            && (Balanced(b, prepaid) ==>
                  (Balanced(after, prepaid + amount) <==> result.newSchedule == [] || Closes(result.newSchedule)))
            && (Balanced(b, prepaid) && result.newSchedule == [] ==> after.loan.remaining == 0)
  {
    PrepaymentItems(b, amount, strategy);
    var result := PrepayResult(b, amount, strategy).value;
    assert amount <= b.loan.remaining && 0 < amount;
    PrepaidItems(b, result);
    hide PrepayResult, Closes, Repays, PaidItems, UnpaidItems, SumPrincipal;
    assert |UnpaidItems(b)| == |b.rows| - b.loan.paidMonths by {
      UnpaidCount(b);
    }
  }

  lemma UnpaidCount(b: Book)
    requires Valid(b)
    ensures |UnpaidItems(b)| == |b.rows| - b.loan.paidMonths
  {}

  /** Paid rows stay, and the new schedule takes the place of the unpaid ones. */
  lemma PrepaidItems(b: Book, result: PrepayCalc)
    requires Valid(b) && result.newTotalMonths == b.loan.paidMonths + |result.newSchedule|
    requires result.newTotalMonths == 0 ==> result.newPrincipal <= 0
    requires forall i :: 0 <= i < |result.newSchedule| ==> ValidDate(result.newSchedule[i].due)
    ensures var after := Prepaid(b, result);
            && Valid(after)
            && |after.rows| == result.newTotalMonths
            && PaidItems(after) == PaidItems(b) && UnpaidItems(after) == result.newSchedule
  {
    hide ValidDate, Numbered;
    NumberedRegrow(b.rows, b.loan.paidMonths, result.newSchedule);
  }

  // ---------------------------------------------------------------- rate changes

  /** Where a rate change would restart; meaningful while something is unpaid. */
  function Restart(b: Book): int {
    var restart := RestartPrincipal(b, MinUnpaid(b.rows));
    if restart.Some? then restart.value else b.loan.remaining
  }

  function RateChangeItems(b: Book, newRate: real): seq<Item>
    requires Valid(b) && b.loan.paidMonths < |b.rows| && newRate > 0.0
  {
    Amortise(RateChangeTerms(b, newRate))
  }

  function RateChangeTerms(b: Book, newRate: real): (t: Terms)
    requires Valid(b) && b.loan.paidMonths < |b.rows|
    ensures newRate > 0.0 ==> ValidTerms(t)
  {
    FirstOfUnpaidValid(b);
    RegeneratedTerms(b.loan.(annualRate := newRate), Restart(b), b.loan.totalMonths - b.loan.paidMonths,
                     FirstOfMonth(b.rows[b.loan.paidMonths].item.due))
  }

  lemma FirstOfUnpaidValid(b: Book)
    requires Valid(b) && b.loan.paidMonths < |b.rows|
    ensures ValidDate(FirstOfMonth(b.rows[b.loan.paidMonths].item.due))
  {}

  /** The book after a rate change with something unpaid. */
  function Rescheduled(b: Book, newRate: real): Book
    requires Valid(b) && b.loan.paidMonths < |b.rows| && newRate > 0.0
  {
    Book(b.loan.(annualRate := newRate),
         b.rows[..b.loan.paidMonths] + NewRows(RateChangeItems(b, newRate), b.loan.paidMonths + 1))
  }

  /** What the queries of a rate change return. */
  lemma NumberedBoundary(b: Book)
    requires Valid(b)
    ensures var paid := b.loan.paidMonths;
            if paid == |b.rows| then MinUnpaid(b.rows) == 0
            else MinUnpaid(b.rows) == paid + 1
                 && DropUnpaid(b.rows) == b.rows[..paid]
                 && FindRow(b.rows, paid + 1) == Some(b.rows[paid])
                 && RestartPrincipal(b, paid + 1) == Some(Restart(b))
  {
    hide ValidDate, Numbered, MinUnpaid, FindRow, DropUnpaid;
    var paid := b.loan.paidMonths;
    NumberedQueries(b.rows, paid);
    NumberedFind(b.rows, paid, paid);
    NumberedFind(b.rows, paid, paid + 1);
  }

  lemma RateChangeIsReschedule(b: Book, newRate: real)
    requires Valid(b) && newRate > 0.0
    ensures RateChanged(b, newRate) ==
            Some(if b.loan.paidMonths < |b.rows| then Rescheduled(b, newRate)
                 else Book(b.loan.(annualRate := newRate), b.rows))
  {
    hide ValidDate, Amortise, Numbered, MinUnpaid, FindRow, DropUnpaid, RestartPrincipal, Restart;
    NumberedBoundary(b);
  }

  lemma RescheduledValid(b: Book, newRate: real)
    requires Valid(b) && b.loan.paidMonths < |b.rows| && newRate > 0.0
    ensures var after := Rescheduled(b, newRate);
            && Valid(after)
            && PaidItems(after) == PaidItems(b) && UnpaidItems(after) == RateChangeItems(b, newRate)
            && (|after.rows| > b.loan.paidMonths ==> Restart(after) == Restart(b))
  {
    hide ValidDate;
    var paid, items := b.loan.paidMonths, RateChangeItems(b, newRate);
    var after := Rescheduled(b, newRate);
    GeneratedDates(RateChangeTerms(b, newRate));
    assert |items| <= b.loan.totalMonths - paid;
    hide RateChangeItems, RateChangeTerms;
    NumberedQueries(b.rows, paid);
    NumberedRegrow(b.rows, paid, items);
    assert Valid(after);
    NumberedQueries(after.rows, paid);
    NumberedFind(after.rows, paid, paid);
    NumberedFind(b.rows, paid, paid);
  }

  lemma RateChangeRepays(b: Book, newRate: real)
    requires Valid(b) && b.loan.paidMonths < |b.rows| && newRate > 0.0
    ensures var items := RateChangeItems(b, newRate);
            if Restart(b) > 0
            then |items| == b.loan.totalMonths - b.loan.paidMonths && SumPrincipal(items) == Restart(b)
                 && (Repays(items, Restart(b)) <==> Closes(items))
            else items == []
  {
    var t := RateChangeTerms(b, newRate);
    if t.principal > 0 {
      Conserves(t);
      RepaysIffCloses(t);
    }
  }

  /** A rate change keeps the numbering. While rows are unpaid it keeps the books balanced exactly when
      it restarts from remaining_principal and the schedule it installs closes. */
  lemma RateChangeKeeps(b: Book, newRate: real, prepaid: int)
    requires Valid(b) && newRate > 0.0
    ensures RateChanged(b, newRate).Some?
    ensures var after := RateChanged(b, newRate).value;
            && Valid(after)
            && (Balanced(b, prepaid) ==>
                  (Balanced(after, prepaid) <==>
                     b.loan.paidMonths == |b.rows| ||
                     (Restart(b) == b.loan.remaining && Closes(RateChangeItems(b, newRate)))))
            && (b.loan.paidMonths < |b.rows| && |after.rows| > b.loan.paidMonths ==> Restart(after) == Restart(b))
  {
    hide ValidDate, RateChanged, Numbered, Restart, RateChangeItems;
    RateChangeIsReschedule(b, newRate);
    if b.loan.paidMonths < |b.rows| {
      RescheduledValid(b, newRate);
      RateChangeRepays(b, newRate);
    } else {
      AllPaidStays(b, newRate);
    }
  }

  lemma AllPaidStays(b: Book, newRate: real)
    requires Valid(b) && b.loan.paidMonths == |b.rows| && newRate > 0.0
    ensures Valid(Book(b.loan.(annualRate := newRate), b.rows))
  {}
}
