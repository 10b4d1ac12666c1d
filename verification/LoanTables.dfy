/** A stored loan and its schedule rows, and what each RPC does to them
    (server/internal/loan/service.go and server/internal/loan/prepayment.go).
    The rows of one loan are kept in month order. */
module LoanTables {
  import opened Money
  import opened Calendar
  import opened Schedule
  import opened Amortization
  import opened FixedPlan
  import opened Wrappers

  datatype Loan = Loan(principal: int, remaining: int, annualRate: real, totalMonths: int, paidMonths: int,
                       plan: Plan, day: int, accrual: InterestCalc, start: Date)

  datatype Row = Row(month: int, item: Item, paid: bool)

  datatype Book = Book(loan: Loan, rows: seq<Row>)

  datatype Strategy = ReduceMonths | ReducePayment

  /** What every reachable book satisfies, whatever the amounts: months are numbered from 1 without gaps
      and exactly the first paid_months of them are paid. */
  ghost predicate Valid(b: Book) {
    && b.loan.principal > 0 && b.loan.annualRate >= 0.0 && 1 <= b.loan.day <= 28 && ValidDate(b.loan.start)
    && 0 <= b.loan.paidMonths <= |b.rows| <= b.loan.totalMonths
    && (b.loan.totalMonths == 0 ==> b.loan.remaining <= 0)
    && Numbered(b.rows, b.loan.paidMonths)
  }

  ghost predicate Numbered(rows: seq<Row>, paid: int) {
    forall i :: 0 <= i < |rows| ==>
      rows[i].month == i + 1 && (rows[i].paid <==> i < paid) && ValidDate(rows[i].item.due)
  }

  // ---------------------------------------------------------------- the SQL statements

  /** SELECT COALESCE(MIN(month_number), 0) ... WHERE is_paid = false */
  function MinUnpaid(rows: seq<Row>): int {
    if rows == [] then 0
    else
      var last, before := rows[|rows| - 1], MinUnpaid(rows[..|rows| - 1]);
      if last.paid then before
      else if before == 0 || last.month < before then last.month else before
  }

  /** SELECT ... WHERE month_number = m */
  function FindRow(rows: seq<Row>, month: int): (row: Option<Row>)
    ensures row.Some? ==> row.value in rows && row.value.month == month
  {
    if rows == [] then None
    else if rows[|rows| - 1].month == month then Some(rows[|rows| - 1])
    else FindRow(rows[..|rows| - 1], month)
  }

  /** DELETE ... WHERE is_paid = false */
  function DropUnpaid(rows: seq<Row>): seq<Row> {
    if rows == [] then []
    else
      var last, before := rows[|rows| - 1], DropUnpaid(rows[..|rows| - 1]);
      if last.paid then before + [last] else before
  }

  /** UPDATE ... SET is_paid = true WHERE month_number = m AND is_paid = false */
  function MarkPaid(rows: seq<Row>, month: int): (marked: seq<Row>)
    ensures |marked| == |rows|
  {
    seq(|rows|, i requires 0 <= i < |rows| =>
      if rows[i].month == month && !rows[i].paid then rows[i].(paid := true) else rows[i])
  }

  /** SELECT COUNT(*) ... WHERE is_paid = true */
  function CountPaid(rows: seq<Row>): nat {
    if rows == [] then 0
    else CountPaid(rows[..|rows| - 1]) + (if rows[|rows| - 1].paid then 1 else 0)
  }

  /** INSERT of freshly generated rows, numbered from `first`. */
  function NewRows(items: seq<Item>, first: int): (rows: seq<Row>)
    ensures |rows| == |items|
  {
    seq(|items|, i requires 0 <= i < |items| => Row(first + i, items[i], false))
  }

  // ---------------------------------------------------------------- CreateLoan

  predicate Acceptable(t: Terms) {
    t.principal > 0 && t.annualRate >= 0.0 && t.months > 0 && 1 <= t.day <= 28
  }

  function Created(t: Terms): Book
    requires Acceptable(t) && ValidDate(t.start)
  {
    Book(Loan(t.principal, t.principal, t.annualRate, t.months, 0, t.plan, t.day, t.accrual, t.start),
         NewRows(Amortise(t), 1))
  }

  // ---------------------------------------------------------------- RecordPayment

  datatype PayReply = Paid(item: Item) | AlreadyPaid(item: Item) | InvalidMonth | AllCompleted
    | OutOfSequence(next: int)

  function PayResult(b: Book, month: int): (Book, PayReply) {
    var next := MinUnpaid(b.rows);
    if month <= 0 then (b, InvalidMonth)
    else if next != 0 && month == next then
      var row := FindRow(b.rows, month);
      if row.None? then (b, InvalidMonth)
      else
        var rows := MarkPaid(b.rows, month);
        (Book(b.loan.(paidMonths := CountPaid(rows), remaining := row.value.item.remaining), rows),
         Paid(row.value.item))
    else
      var row := FindRow(b.rows, month);
      if row.Some? && row.value.paid then (b, AlreadyPaid(row.value.item))
      else if next == 0 then (b, AllCompleted)
      else (b, OutOfSequence(next))
  }

  // ---------------------------------------------------------------- ExecutePrepayment

  datatype PrepayCalc = PrepayCalc(newSchedule: seq<Item>, newPrincipal: int, newTotalMonths: int,
                                   interestBefore: int, interestAfter: int, interestSaved: int,
                                   monthsReduced: int, displayPayment: int)

  function RowInterest(rows: seq<Row>): int {
    if rows == [] then 0 else RowInterest(rows[..|rows| - 1]) + rows[|rows| - 1].item.interest
  }

  function PaidInterest(rows: seq<Row>): int {
    if rows == [] then 0
    else PaidInterest(rows[..|rows| - 1]) + (if rows[|rows| - 1].paid then rows[|rows| - 1].item.interest else 0)
  }

  function NextUnpaidDue(rows: seq<Row>, fallback: Date): Date {
    if rows == [] then fallback
    else if !rows[0].paid then rows[0].item.due
    else NextUnpaidDue(rows[1..], fallback)
  }

  lemma {:induction false} NextUnpaidDueValid(rows: seq<Row>, fallback: Date)
    requires ValidDate(fallback) && forall row :: row in rows ==> ValidDate(row.item.due)
    ensures ValidDate(NextUnpaidDue(rows, fallback))
    ensures ValidDate(FirstOfMonth(NextUnpaidDue(rows, fallback)))
  {
    if rows != [] && rows[0].paid {
      NextUnpaidDueValid(rows[1..], fallback);
    }
  }

  function Ceil(x: real): int {
    -((-x).Floor)
  }

  /** Months needed at the original even part; a part that rounds to zero gives one month. */
  function EvenMonths(newPrincipal: int, part: int): int {
    if part == 0 then 1
    else
      var months := Ceil(newPrincipal as real / part as real);
      if months < 1 then 1 else months
  }

  ghost predicate CanRegenerate(loan: Loan) {
    loan.annualRate >= 0.0 && 1 <= loan.day <= 28 && loan.totalMonths > 0
  }

  function RegeneratedTerms(loan: Loan, principal: int, months: int, start: Date): Terms {
    Terms(principal, loan.annualRate, months, loan.plan, loan.day, start, loan.accrual)
  }

  lemma RateOfLoan(annualRate: real)
    requires annualRate >= 0.0
    ensures MonthlyRate(annualRate) >= 0.0
  {}

  /** The payment at which a level loan is shortened: that of its principal over its present months. */
  function KeptPayment(loan: Loan): int
    requires CanRegenerate(loan)
  {
    RateOfLoan(loan.annualRate);
    Round(Annuity(loan.principal, MonthlyRate(loan.annualRate), loan.totalMonths))
  }

  /** The schedule of the shorten-the-loan strategy; None where the source panics. */
  function ShorterSchedule(loan: Loan, newPrincipal: int, start: Date): Option<seq<Item>>
    requires CanRegenerate(loan) && ValidDate(start)
  {
    RateOfLoan(loan.annualRate);
    match loan.plan
    case EqualInstallment =>
      Some(FixedFrom(newPrincipal, MonthlyRate(loan.annualRate), KeptPayment(loan), 0, loan.day, start))
    case EqualPrincipal =>
      var part := Round(loan.principal as real / loan.totalMonths as real);
      Some(Amortise(RegeneratedTerms(loan, newPrincipal, EvenMonths(newPrincipal, part), start)))
    case EqualInterest => None
    case _ => Some(Amortise(RegeneratedTerms(loan, newPrincipal, loan.totalMonths - loan.paidMonths, start)))
  }

  function NewSchedule(loan: Loan, newPrincipal: int, start: Date, strategy: Strategy): Option<seq<Item>>
    requires CanRegenerate(loan) && ValidDate(start)
  {
    if newPrincipal <= 0 then Some([])
    else if strategy == ReduceMonths then ShorterSchedule(loan, newPrincipal, start)
    else Some(Amortise(RegeneratedTerms(loan, newPrincipal, loan.totalMonths - loan.paidMonths, start)))
  }

  function Calculation(loan: Loan, rows: seq<Row>, amount: int, strategy: Strategy): Option<PrepayCalc>
    requires CanRegenerate(loan) && ValidDate(loan.start) && forall row :: row in rows ==> ValidDate(row.item.due)
  {
    NextUnpaidDueValid(rows, loan.start);
    var newPrincipal := loan.remaining - amount;
    var schedule := NewSchedule(loan, newPrincipal, FirstOfMonth(NextUnpaidDue(rows, loan.start)), strategy);
    if schedule.None? then None
    else
      var items := schedule.value;
      var total := if newPrincipal <= 0 || strategy == ReduceMonths then loan.paidMonths + |items|
                   else loan.totalMonths;
      var after := PaidInterest(rows) + SumInterest(items);
      Some(PrepayCalc(items, AtLeastZero(newPrincipal), total, RowInterest(rows), after,
                      AtLeastZero(RowInterest(rows) - after),
                      AtLeastZero(loan.totalMonths - loan.paidMonths - |items|),
                      if items != [] then items[0].payment else 0))
  }

  predicate PrepayAllowed(loan: Loan, amount: int) {
    0 < amount <= loan.remaining
  }

  lemma RowsHaveDueDates(b: Book)
    requires Valid(b)
    ensures forall row :: row in b.rows ==> ValidDate(row.item.due)
  {}

  /** None when the request is refused or the source panics: nothing is written. */
  function PrepayResult(b: Book, amount: int, strategy: Strategy): Option<PrepayCalc>
    requires Valid(b)
  {
    RowsHaveDueDates(b);
    if PrepayAllowed(b.loan, amount) then Calculation(b.loan, b.rows, amount, strategy) else None
  }

  function Prepaid(b: Book, result: PrepayCalc): Book {
    Book(b.loan.(remaining := result.newPrincipal, totalMonths := result.newTotalMonths),
         DropUnpaid(b.rows) + NewRows(result.newSchedule, b.loan.paidMonths + 1))
  }

  // ---------------------------------------------------------------- RecordRateChange

  /** The principal a rate change restarts from: the last paid row's balance, or the whole loan. */
  function RestartPrincipal(b: Book, next: int): Option<int> {
    if next == 1 then Some(b.loan.principal)
    else
      var row := FindRow(b.rows, next - 1);
      if row.Some? then Some(row.value.item.remaining) else None
  }

  lemma FoundDueValid(b: Book, month: int)
    requires Valid(b)
    ensures var row := FindRow(b.rows, month);
            row.Some? ==> ValidDate(FirstOfMonth(row.value.item.due))
  {
    RowsHaveDueDates(b);
  }

  /** None when the request is refused. */
  function RateChanged(b: Book, newRate: real): Option<Book>
    requires Valid(b)
  {
    FoundDueValid(b, MinUnpaid(b.rows));
    if newRate <= 0.0 then None
    else
      var loan, next := b.loan.(annualRate := newRate), MinUnpaid(b.rows);
      if next == 0 then Some(Book(loan, b.rows))
      else
        var restart, first := RestartPrincipal(b, next), FindRow(b.rows, next);
        if restart.None? || first.None? then None
        else
          var items := Amortise(RegeneratedTerms(loan, restart.value, loan.totalMonths - next + 1,
                                                 FirstOfMonth(first.value.item.due)));
          Some(Book(loan, DropUnpaid(b.rows) + NewRows(items, next)))
  }
}
