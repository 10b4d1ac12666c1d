/** The identities of a loan's books alone, without asking that something is still owed before the last row. */
module LoanIdentities {
  import opened Money
  import opened Calendar
  import opened Schedule
  import opened Amortization
  import opened FixedPlan
  import opened LoanTables
  import opened LoanLifecycle
  import opened LoanRuns
  import opened LoanConditions
  import opened Wrappers

  /** Months are numbered and complete, remaining_principal is what the unpaid rows repay, and the original
      principal is what was repaid, prepaid or is still owed. */
  ghost predicate Agree(b: Book, prepaid: int) {
    && Valid(b)
    && |b.rows| == b.loan.totalMonths
    && b.loan.remaining == SumPrincipal(UnpaidItems(b))
    && b.loan.principal == SumPrincipal(PaidItems(b)) + prepaid + b.loan.remaining
  }

  lemma BalancedAgree(b: Book, prepaid: int)
    requires Balanced(b, prepaid)
    ensures Agree(b, prepaid)
  {}

  // ---------------------------------------------------------------- one request

  /** The next row records what is left after it. */
  predicate NextRecords(b: Book)
    requires Valid(b) && b.loan.paidMonths < |b.rows|
  {
    var item := b.rows[b.loan.paidMonths].item;
    item.remaining == b.loan.remaining - item.principal
  }

  /** What a request must meet for the identities to survive it. */
  ghost predicate KeepsIdentities(b: Book, c: Command)
    requires Valid(b)
  {
    match c
    case Pay(month) => month == b.loan.paidMonths + 1 && month <= |b.rows| ==> NextRecords(b)
    case Prepay(amount, strategy) =>
      0 < amount < b.loan.remaining && strategy == ReduceMonths && b.loan.plan == EqualInstallment ==>
        FixedLeft(b.loan.remaining - amount, MonthlyRate(b.loan.annualRate), KeptPayment(b.loan), MONTH_CAP) == 0
    case ChangeRate(newRate) =>
      newRate > 0.0 && b.loan.paidMonths < |b.rows| ==> Restart(b) == b.loan.remaining > 0
  }

  lemma PaymentAgrees(b: Book, prepaid: int)
    requires Agree(b, prepaid) && b.loan.paidMonths < |b.rows|
    ensures Agree(NextPaid(b), prepaid) <==> NextRecords(b)
  {
    hide ValidDate, Numbered, Restart, Balanced, SumPrincipal;
    NextPaidBalanced(b, prepaid);
    NextPaidSums(b);
  }

  lemma NextPaidSums(b: Book)
    requires Valid(b) && b.loan.paidMonths < |b.rows| && Valid(NextPaid(b))
    ensures var item := b.rows[b.loan.paidMonths].item;
            && SumPrincipal(UnpaidItems(b)) == item.principal + SumPrincipal(UnpaidItems(NextPaid(b)))
            && SumPrincipal(PaidItems(NextPaid(b))) == SumPrincipal(PaidItems(b)) + item.principal
  {
    hide ValidDate, Numbered;
    var after, paid := NextPaid(b), b.loan.paidMonths;
    var item, rest := b.rows[paid].item, UnpaidItems(after);
    assert UnpaidItems(b) == [item] + rest;
    SplitSum(item, rest, |rest|);
    assert ([item] + rest)[..|rest| + 1] == [item] + rest && rest[..|rest|] == rest;
    assert PaidItems(after)[..paid] == PaidItems(b) && PaidItems(after)[..paid + 1] == PaidItems(after);
    SumStep(PaidItems(after), paid);
  }

  /** Only a shortened level plan cut off by the month cap fails to add up. */
  lemma NewScheduleSums(b: Book, amount: int, strategy: Strategy)
    requires Valid(b) && PrepayResult(b, amount, strategy).Some?
    ensures var result := PrepayResult(b, amount, strategy).value;
            && (result.newPrincipal > 0 && result.newSchedule != [] ==>
                  (SumPrincipal(result.newSchedule) == result.newPrincipal <==>
                     KeepsIdentities(b, Prepay(amount, strategy))))
            && (result.newSchedule == [] ==> KeepsIdentities(b, Prepay(amount, strategy)))
  {
    hide PrepayResult, ShorterSchedule, Amortise, ValidDate, FixedLeft, KeptPayment, MonthlyRate, Numbered,
         NextUnpaidDue, FirstOfMonth, Closes, Repays;
    PrepaymentItems(b, amount, strategy);
    PrepaymentSchedule(b, amount, strategy);
    var start, rest := FirstOfMonth(NextUnpaidDue(b.rows, b.loan.start)), b.loan.remaining - amount;
    if rest > 0 {
      if strategy == ReduceMonths && b.loan.plan == EqualInstallment {
        ShorterSums(b.loan, rest, start);
      } else {
        RegeneratedSums(b.loan, rest, start, strategy);
      }
    }
  }

  lemma LastRecord(items: seq<Item>, owed: int)
    requires items != [] && Records(items, owed)
    ensures Closes(items) <==> SumPrincipal(items) == owed
  {
    assert items[..|items|] == items;
  }

  lemma ShorterSums(loan: Loan, rest: int, start: Date)
    requires CanRegenerate(loan) && ValidDate(start) && rest > 0 && loan.plan == EqualInstallment
    ensures var schedule := ShorterSchedule(loan, rest, start);
            && schedule.Some? && schedule.value != []
            && (SumPrincipal(schedule.value) == rest <==>
                FixedLeft(rest, MonthlyRate(loan.annualRate), KeptPayment(loan), MONTH_CAP) == 0)
  {
    hide ValidDate, FixedLeft, FixedFrom, KeptPayment, MonthlyRate;
    RateOfLoan(loan.annualRate);
    FixedSums(rest, MonthlyRate(loan.annualRate), KeptPayment(loan), loan.day, start);
  }

  lemma FixedSums(rest: int, r: real, pay: int, day: int, start: Date)
    requires ValidDate(start) && day >= 1 && rest > 0
    ensures var items := FixedFrom(rest, r, pay, 0, day, start);
            items != [] && (SumPrincipal(items) == rest <==> FixedLeft(rest, r, pay, MONTH_CAP) == 0)
  {
    hide ValidDate, FixedLeft, FixedFrom;
    FixedRecords(rest, r, pay, 0, day, start);
    FixedClosesExactly(rest, r, pay, 0, day, start);
    LastRecord(FixedFrom(rest, r, pay, 0, day, start), rest);
  }

  lemma RegeneratedSums(loan: Loan, rest: int, start: Date, strategy: Strategy)
    requires CanRegenerate(loan) && ValidDate(start) && rest > 0
    requires !(strategy == ReduceMonths && loan.plan == EqualInstallment)
    requires NewSchedule(loan, rest, start, strategy).Some?
    ensures var items := NewSchedule(loan, rest, start, strategy).value;
            items != [] ==> SumPrincipal(items) == rest
  {
    hide Round, ValidDate;
    var part := Round(loan.principal as real / loan.totalMonths as real);
    var months := if strategy == ReduceMonths && loan.plan == EqualPrincipal then EvenMonths(rest, part)
                  else loan.totalMonths - loan.paidMonths;
    var t := RegeneratedTerms(loan, rest, months, start);
    assert NewSchedule(loan, rest, start, strategy) == Some(Amortise(t));
    if months > 0 {
      Conserves(t);
    }
  }

  lemma PrepaymentAgrees(b: Book, amount: int, strategy: Strategy, prepaid: int)
    requires Agree(b, prepaid) && PrepayResult(b, amount, strategy).Some?
    ensures Agree(Prepaid(b, PrepayResult(b, amount, strategy).value), prepaid + amount) <==>
            KeepsIdentities(b, Prepay(amount, strategy))
  {
    hide ValidDate, Numbered, Calculation, Repays, Closes, KeepsIdentities;
    PrepaymentItems(b, amount, strategy);
    NewScheduleSums(b, amount, strategy);
    var result := PrepayResult(b, amount, strategy).value;
    NothingUnpaid(b);
    PrepaidItems(b, result);
    assert amount <= b.loan.remaining && result.newPrincipal > 0 ==> result.newSchedule != [];
  }

  lemma NothingUnpaid(b: Book)
    requires Valid(b)
    ensures b.loan.paidMonths == |b.rows| ==> SumPrincipal(UnpaidItems(b)) == 0
  {}

  lemma RateChangeAgrees(b: Book, newRate: real, prepaid: int)
    requires Agree(b, prepaid) && newRate > 0.0
    ensures RateChanged(b, newRate).Some?
    ensures Agree(RateChanged(b, newRate).value, prepaid) <==> KeepsIdentities(b, ChangeRate(newRate))
  {
    hide ValidDate, RateChanged, Numbered, Restart, RateChangeItems, Repays, Closes;
    RateChangeIsReschedule(b, newRate);
    if b.loan.paidMonths < |b.rows| {
      RescheduledValid(b, newRate);
      RateChangeRepays(b, newRate);
    } else {
      AllPaidStays(b, newRate);
      assert UnpaidItems(b) == UnpaidItems(Book(b.loan.(annualRate := newRate), b.rows));
    }
  }

  /** Exactly the requests that meet it keep the identities. */
  lemma IdentitiesStep(b: Book, c: Command, prepaid: int)
    requires Agree(b, prepaid)
    ensures Valid(Step(b, c))
    ensures Agree(Step(b, c), prepaid + PrepaidIn(b, c)) <==> KeepsIdentities(b, c)
  {
    hide Agree, PayResult, PrepayResult, Prepaid, RateChanged, Restart, NextRecords, FixedLeft, KeptPayment, NextPaid;
    AgreeIsValid(b, prepaid);
    hide Valid;
    StepExact(b, c, prepaid);
    match c
    case Pay(month) =>
      PaymentIsNextRow(b, month);
      if PayResult(b, month).1.Paid? {
        PaymentAgrees(b, prepaid);
      }
    case Prepay(amount, strategy) =>
      if PrepayResult(b, amount, strategy).Some? {
        PrepaymentAgrees(b, amount, strategy, prepaid);
      } else {
        NoPrepayment(b, amount, strategy);
      }
    case ChangeRate(newRate) =>
      if newRate > 0.0 {
        RateChangeAgrees(b, newRate, prepaid);
      } else {
        RateRefused(b, newRate);
      }
  }

  lemma AgreeIsValid(b: Book, prepaid: int)
    requires Agree(b, prepaid)
    ensures Valid(b)
  {}

  // ---------------------------------------------------------------- whole lives

  ghost predicate RunKeepsIdentities(b: Book, cs: seq<Command>)
    requires Valid(b)
    decreases |cs|
  {
    cs == [] || (KeepsIdentities(b, cs[0]) && (StepExact(b, cs[0], 0); RunKeepsIdentities(Step(b, cs[0]), cs[1..])))
  }

  /** The identities hold before, after and at every point of the run. */
  ghost predicate AgreeThroughout(b: Book, cs: seq<Command>, prepaid: int)
    requires Valid(b)
    decreases |cs|
  {
    && Agree(b, prepaid)
    && (cs != [] ==>
          (StepExact(b, cs[0], 0); AgreeThroughout(Step(b, cs[0]), cs[1..], prepaid + PrepaidIn(b, cs[0]))))
  }

  lemma {:induction false} IdentitiesRun(b: Book, cs: seq<Command>, prepaid: int)
    requires Valid(b) && Agree(b, prepaid)
    ensures AgreeThroughout(b, cs, prepaid) <==> RunKeepsIdentities(b, cs)
    decreases |cs|
  {
    hide Valid, Agree, Step, KeepsIdentities, PrepaidIn;
    if cs != [] {
      var next, total := Step(b, cs[0]), prepaid + PrepaidIn(b, cs[0]);
      IdentitiesStep(b, cs[0], prepaid);
      if KeepsIdentities(b, cs[0]) {
        IdentitiesRun(next, cs[1..], total);
      } else {
        DisagreementStops(next, cs[1..], total);
      }
    }
  }

  lemma DisagreementStops(b: Book, cs: seq<Command>, prepaid: int)
    requires Valid(b) && !Agree(b, prepaid)
    ensures !AgreeThroughout(b, cs, prepaid)
  {}

  /** Whatever the terms, a new book agrees. */
  lemma CreatedAgrees(t: Terms)
    requires Acceptable(t) && ValidDate(t.start)
    ensures Agree(Created(t), 0)
  {
    hide Repays, Closes, Balanced, Restart;
    CreatedBalanced(t);
    Conserves(t);
    hide Amortise, ValidDate;
    assert UnpaidItems(Created(t)) == Amortise(t) && PaidItems(Created(t)) == [];
  }

  /** The identities hold throughout a loan's life exactly when every request meets its condition. */
  lemma IdentitiesLife(t: Terms, cs: seq<Command>)
    requires Acceptable(t) && ValidDate(t.start)
    ensures Valid(Created(t))
    ensures AgreeThroughout(Created(t), cs, 0) <==> RunKeepsIdentities(Created(t), cs)
  {
    CreatedAgrees(t);
    IdentitiesRun(Created(t), cs, 0);
  }

  // ---------------------------------------------------------------- payments

  /** Every row records what is left after it. */
  ghost predicate Tallies(items: seq<Item>, owed: int) {
    forall k :: 0 <= k < |items| ==> items[k].remaining == owed - SumPrincipal(items[..k + 1])
  }

  lemma TalliesStep(x: Item, rest: seq<Item>, owed: int)
    ensures Tallies([x] + rest, owed) <==> x.remaining == owed - x.principal && Tallies(rest, x.remaining)
  {
    var items := [x] + rest;
    FirstRow(x, rest, 0);
    assert items[0] == x && rest[..0] == [];
    forall k | 0 <= k < |rest|
      ensures SumPrincipal(items[..k + 2]) == x.principal + SumPrincipal(rest[..k + 1]) && items[k + 1] == rest[k]
    {
      FirstRow(x, rest, k + 1);
    }
    hide SumPrincipal;
    if x.remaining == owed - x.principal && Tallies(rest, x.remaining) {
      forall k | 0 <= k < |items|
        ensures items[k].remaining == owed - SumPrincipal(items[..k + 1])
      {
        assert k > 0 ==> items[k] == rest[k - 1];
      }
    } else if x.remaining == owed - x.principal {
      var k :| 0 <= k < |rest| && rest[k].remaining != x.remaining - SumPrincipal(rest[..k + 1]);
      assert items[k + 1] == rest[k];
    }
  }

  /** Paying every row that is left, one after the other. */
  function PayRest(b: Book): (cs: seq<Command>)
    requires Valid(b)
    ensures |cs| == |b.rows| - b.loan.paidMonths
  {
    seq(|b.rows| - b.loan.paidMonths, i requires 0 <= i => Pay(b.loan.paidMonths + 1 + i))
  }

  /** The payments to come keep the identities exactly when every unpaid row records what is left after it. */
  lemma {:induction false} PaymentsTally(b: Book, prepaid: int)
    requires Agree(b, prepaid)
    ensures AgreeThroughout(b, PayRest(b), prepaid) <==> Tallies(UnpaidItems(b), b.loan.remaining)
    decreases |b.rows| - b.loan.paidMonths
  {
    hide Agree, Tallies, Numbered, ValidDate, Restart, Balanced, PayResult;
    AgreeIsValid(b, prepaid);
    var cs := PayRest(b);
    if b.loan.paidMonths == |b.rows| {
      NothingToTally(b);
    } else {
      var after := NextPaid(b);
      PaymentIsNextRow(b, b.loan.paidMonths + 1);
      NextPaidBalanced(b, prepaid);
      PaymentAgrees(b, prepaid);
      StepExact(b, cs[0], 0);
      assert cs[1..] == PayRest(after);
      var item, rest := b.rows[b.loan.paidMonths].item, UnpaidItems(after);
      assert UnpaidItems(b) == [item] + rest;
      TalliesStep(item, rest, b.loan.remaining);
      if NextRecords(b) {
        PaymentsTally(after, prepaid);
      } else {
        DisagreementStops(after, cs[1..], prepaid);
      }
    }
  }

  lemma NothingToTally(b: Book)
    requires Valid(b) && b.loan.paidMonths == |b.rows|
    ensures Tallies(UnpaidItems(b), b.loan.remaining)
  {}

  /** Level payments before the last never repay more than the principal. Other plans need nothing. */
  ghost predicate TermsTally(t: Terms)
    requires Generates(t)
  {
    t.plan == EqualInstallment ==>
      PaidBy(t.principal, MonthlyRate(t.annualRate), LevelPayment(t), t.months - 1) <= t.principal
  }

  lemma {:induction false} RestWhileCovered(p: int, r: real, m: int, i: nat)
    requires p >= 0 && r >= 0.0 && m >= Interest(p, r) && PaidBy(p, r, m, i) <= p
    ensures Left(p, r, m, i) == p - PaidBy(p, r, m, i)
  {
    hide Interest;
    if i > 0 {
      BalanceFallsFar(p, r, m, i - 1, i);
      RestWhileCovered(p, r, m, i - 1);
    }
  }

  lemma RowTallies(t: Terms, k: nat)
    requires Generates(t) && TermsTally(t) && k < t.months
    ensures ItemAt(t, k).remaining == t.principal - (if k == t.months - 1 then t.principal else PaidBefore(t, k + 1))
  {
    hide Round, Interest, DueDate, ValidDate, MonthlyRate, Annuity, LevelPayment, EvenPart, SimpleInterest;
    var p, r, m := t.principal, MonthlyRate(t.annualRate), LevelPayment(t);
    RateNonNegative(t);
    PaymentCoversInterest(t);
    PaidStep(t, k);
    if t.plan == EqualInstallment && k < t.months - 1 {
      BalanceFallsFar(p, r, m, k + 1, t.months - 1);
      RestWhileCovered(p, r, m, k + 1);
    }
  }

  /** The row before the last gives an excess away: it records no less than nothing. */
  lemma ExcessShows(t: Terms)
    requires Generates(t)
    ensures !TermsTally(t) ==>
              t.months > 1 && ItemAt(t, t.months - 2).remaining != t.principal - PaidBefore(t, t.months - 1)
  {
    hide Round, Interest, DueDate, ValidDate, MonthlyRate, Annuity, LevelPayment;
    RateNonNegative(t);
    PaymentCoversInterest(t);
    BalanceFallsFar(t.principal, MonthlyRate(t.annualRate), LevelPayment(t), t.months - 1, t.months - 1);
  }

  /** A generated schedule records what is left after every row exactly under that condition on its terms. */
  lemma AmortiseTallies(t: Terms)
    requires Generates(t)
    ensures Tallies(Amortise(t), t.principal) <==> TermsTally(t)
  {
    hide ItemAt, PaidBefore, TermsTally, SumPrincipal;
    if TermsTally(t) {
      forall k | 0 <= k < t.months
        ensures Amortise(t)[k].remaining == t.principal - SumPrincipal(Amortise(t)[..k + 1])
      {
        PrefixPrincipal(t, k + 1);
        RowTallies(t, k);
      }
    } else {
      ExcessShows(t);
      PrefixPrincipal(t, t.months - 1);
      assert Amortise(t)[t.months - 2] == ItemAt(t, t.months - 2);
    }
  }

  /** A plan with a fixed payment always does. */
  lemma FixedTallies(rest: int, r: real, pay: int, day: int, start: Date)
    requires ValidDate(start) && day >= 1 && rest > 0
    ensures Tallies(FixedFrom(rest, r, pay, 0, day, start), rest)
  {
    hide FixedFrom, ValidDate;
    FixedRecords(rest, r, pay, 0, day, start);
  }

  /** So a new loan keeps the identities through all its payments exactly when its terms tally. */
  lemma PaymentsAgree(t: Terms)
    requires Acceptable(t) && ValidDate(t.start)
    ensures Valid(Created(t))
    ensures AgreeThroughout(Created(t), PayRest(Created(t)), 0) <==> TermsTally(t)
  {
    hide TermsTally, Tallies, AgreeThroughout, PayRest, ValidDate, Amortise;
    CreatedAgrees(t);
    PaymentsTally(Created(t), 0);
    AmortiseTallies(t);
    assert UnpaidItems(Created(t)) == Amortise(t);
  }

  /** Two cents over three months: parts of one, one and nothing. The identities hold through every payment,
      although the last row repays nothing. */
  lemma UnsizedCanAgree()
    ensures var t := Terms(2, 0.0, 3, EqualPrincipal, 15, Date(2024, 1, 1), Monthly);
            && Acceptable(t) && ValidDate(t.start) && !Sized(t) && Valid(Created(t))
            && AgreeThroughout(Created(t), PayRest(Created(t)), 0) && !Balanced(Created(t), 0)
  {
    var t := Terms(2, 0.0, 3, EqualPrincipal, 15, Date(2024, 1, 1), Monthly);
    hide Amortise, AgreeThroughout, PayRest, Created, Balanced, Closes, Valid;
    PaymentsAgree(t);
    CreatedBalanced(t);
    SizedCloses(t);
  }
}
