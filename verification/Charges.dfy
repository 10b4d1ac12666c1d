/** What each row of a schedule charges, in terms of the rows alone (server/internal/loan/service.go). */
module Charges {
  import opened Money
  import opened Calendar
  import opened Schedule
  import opened Amortization
  import opened FixedPlan

  /** A month's share of a yearly percentage of a balance. */
  function MonthShare(balance: int, annualRate: real): real {
    balance as real * annualRate / 1200.0
  }

  function MonthsShare(balance: int, annualRate: real, months: int): real {
    months as real * MonthShare(balance, annualRate)
  }

  /** The share of so many days, in a year of 360 or 365. */
  function DayShare(balance: int, annualRate: real, accrual: InterestCalc, days: int): real {
    balance as real * annualRate * days as real / (if accrual == DailyAct360 then 36000.0 else 36500.0)
  }

  lemma MonthShareIs(balance: int, annualRate: real, months: int)
    ensures balance as real * MonthlyRate(annualRate) == MonthShare(balance, annualRate)
    ensures Accrual(balance, MonthlyRate(annualRate), months) == MonthsShare(balance, annualRate, months)
  {
    var rate := annualRate / 1200.0;
    assert MonthlyRate(annualRate) == rate;
    assert balance as real * rate == balance as real * annualRate / 1200.0;
  }

  lemma DayShareIs(balance: int, annualRate: real, accrual: InterestCalc, days: int)
    ensures Accrual(balance, DailyRate(annualRate, accrual), days) == DayShare(balance, annualRate, accrual, days)
  {
    var product := balance as real * annualRate;
    if accrual == DailyAct360 {
      assert balance as real * DailyRate(annualRate, accrual) == product / 36000.0;
      assert product / 36000.0 * days as real == product * days as real / 36000.0;
    } else {
      assert balance as real * DailyRate(annualRate, accrual) == product / 36500.0;
      assert product / 36500.0 * days as real == product * days as real / 36500.0;
    }
  }

  lemma InterestIs(balance: int, annualRate: real)
    ensures Interest(balance, MonthlyRate(annualRate)) == Round(MonthShare(balance, annualRate))
  {
    MonthShareIs(balance, annualRate, 1);
    hide Round, MonthlyRate, MonthShare;
  }

  // ---------------------------------------------------------------- plans without level payments

  /** Even principal: interest on what the rows before have left owing. */
  lemma EvenPrincipalCharges(t: Terms, i: nat)
    requires Generates(t) && t.plan == EqualPrincipal && i < t.months
    ensures Amortise(t)[i].interest == Round(MonthShare(t.principal - SumPrincipal(Amortise(t)[..i]), t.annualRate))
  {
    hide Round, MonthlyRate, DueDate, ValidDate, Interest, EvenPart, MonthShare;
    PrefixPrincipal(t, i);
    assert Amortise(t)[i] == EvenItem(t, i);
    InterestIs(t.principal - i * EvenPart(t), t.annualRate);
  }

  /** So it never rises. */
  lemma EvenPrincipalFalls(t: Terms, i: nat, j: nat)
    requires Generates(t) && t.plan == EqualPrincipal && i <= j < t.months
    ensures Amortise(t)[j].interest <= Amortise(t)[i].interest
  {
    hide Round, MonthlyRate, DueDate, ValidDate, Interest, EvenPart;
    EvenPartNonNegative(t);
    RateNonNegative(t);
    IntMulMonotone(EvenPart(t), i, j);
    InterestMonotone(t.principal - j * EvenPart(t), t.principal - i * EvenPart(t), MonthlyRate(t.annualRate));
    assert Amortise(t)[i] == EvenItem(t, i) && Amortise(t)[j] == EvenItem(t, j);
  }

  /** Even principal and interest, and interest first by months: every row charges the whole principal. */
  lemma WholePrincipalCharges(t: Terms, i: nat)
    requires Generates(t) && i < t.months
    requires t.plan == EqualInterest || (t.plan == InterestOnly && t.accrual == Monthly)
    ensures Amortise(t)[i].interest == Round(MonthShare(t.principal, t.annualRate))
  {
    hide Round, MonthlyRate, DueDate, ValidDate, Interest, EvenPart, MonthShare;
    assert Amortise(t)[i] == ItemAt(t, i);
    InterestIs(t.principal, t.annualRate);
  }

  /** Interest first by days: the counted days of the period, in a year of 360 or 365. */
  lemma DailyCharges(t: Terms, i: nat)
    requires Generates(t) && i < t.months && t.plan == InterestOnly && t.accrual != Monthly
    ensures Amortise(t)[i].interest
            == Round(DayShare(t.principal, t.annualRate, t.accrual, PeriodDays(t.start, i, t.day)))
  {
    DayShareIs(t.principal, t.annualRate, t.accrual, PeriodDays(t.start, i, t.day));
    hide Round, DueDate, ValidDate, PeriodDays, DailyRate, DayShare, Accrual;
    assert Amortise(t)[i] == InterestOnlyItem(t, i);
  }

  /** Bullet: nothing until the last row, which charges the whole term. */
  lemma BulletCharges(t: Terms, i: nat)
    requires Generates(t) && i < t.months && t.plan == Bullet
    ensures i < t.months - 1 ==> Amortise(t)[i].interest == 0 && Amortise(t)[i].payment == 0
    ensures i == t.months - 1 && t.accrual == Monthly ==>
              Amortise(t)[i].interest == Round(MonthsShare(t.principal, t.annualRate, t.months))
    ensures i == t.months - 1 && t.accrual != Monthly && t.day <= 28 ==>
              var days := DaysInPeriod(t.start, PeriodStart(t.start, t.months, t.day));
              Abs(Amortise(t)[i].interest as real - DayShare(t.principal, t.annualRate, t.accrual, days))
              <= t.months as real / 2.0
  {
    hide Round, DueDate, DueMonth, ValidDate, Abs, DaysInPeriod, MonthlyRate, DailyRate, MonthsShare, DayShare, Accrual;
    assert Amortise(t)[i] == BulletItem(t, i);
    if i == t.months - 1 && t.accrual == Monthly {
      MonthShareIs(t.principal, t.annualRate, t.months);
    } else if i == t.months - 1 && t.day <= 28 {
      DayShareIs(t.principal, t.annualRate, t.accrual, DaysInPeriod(t.start, PeriodStart(t.start, t.months, t.day)));
      BulletInterestDrift(t);
    }
  }

  // ---------------------------------------------------------------- level payments

  /** Level payments: interest on the balance the row before recorded; in the last row, on what the parts have left. */
  lemma LevelCharges(t: Terms, i: nat)
    requires Generates(t) && i < t.months && t.plan == EqualInstallment
    ensures i == 0 < t.months - 1 ==> Amortise(t)[0].interest == Round(MonthShare(t.principal, t.annualRate))
    ensures 0 < i < t.months - 1 ==>
              Amortise(t)[i].interest == Round(MonthShare(Amortise(t)[i - 1].remaining, t.annualRate))
    ensures i == t.months - 1 ==>
              Amortise(t)[i].interest == Round(MonthShare(t.principal - SumPrincipal(Amortise(t)[..i]), t.annualRate))
  {
    hide Round, MonthlyRate, DueDate, ValidDate, Interest, LevelPayment, MonthShare;
    PrefixPrincipal(t, i);
    var p, r, m := t.principal, MonthlyRate(t.annualRate), LevelPayment(t);
    assert Amortise(t)[i] == InstallmentItem(t, i);
    if i < t.months - 1 {
      InterestIs(Left(p, r, m, i), t.annualRate);
      if i > 0 {
        assert Amortise(t)[i - 1] == InstallmentItem(t, i - 1);
      }
    } else {
      InterestIs(p - PaidBy(p, r, m, i), t.annualRate);
    }
  }

  lemma {:induction false} FixedRowIs(left: int, r: real, pay: int, i: nat, day: int, start: Date, k: nat)
    requires ValidDate(start) && day >= 1 && left > 0 && k < |FixedFrom(left, r, pay, i, day, start)|
    ensures var items := FixedFrom(left, r, pay, i, day, start);
            var row, owed := items[k], left - SumPrincipal(items[..k]);
            && owed > 0 && row.interest == Interest(owed, r)
            && row.principal == (if MonthPart(owed, r, pay) >= owed then owed else MonthPart(owed, r, pay))
            && row.remaining == owed - row.principal
            && row.payment == if MonthPart(owed, r, pay) >= owed then owed + row.interest else pay
    decreases k
  {
    hide DueDate, ValidDate, FixedFrom, Interest, MonthPart;
    FixedRow(left, r, pay, i, day, start);
    var items := FixedFrom(left, r, pay, i, day, start);
    if k > 0 {
      var rest := FixedFrom(left - MonthPart(left, r, pay), r, pay, i + 1, day, start);
      assert items == [items[0]] + rest;
      FixedRowIs(left - MonthPart(left, r, pay), r, pay, i + 1, day, start, k - 1);
      FirstRow(items[0], rest, k - 1);
    } else {
      assert items[..0] == [];
    }
  }

  /** A fixed payment: interest on what is owed; the payment less it goes to the principal, or one cent if nothing is
      left of it, and the last row clears the rest. So a row short of its interest pays less than it charges. */
  lemma FixedCharges(left: int, r: real, pay: int, i: nat, day: int, start: Date, k: nat)
    requires ValidDate(start) && day >= 1 && left > 0 && k < |FixedFrom(left, r, pay, i, day, start)|
    ensures var items := FixedFrom(left, r, pay, i, day, start);
            var row, owed := items[k], left - SumPrincipal(items[..k]);
            && owed > 0
            && row.interest == Round(owed as real * r)
            && row.remaining == owed - row.principal
            && (row.remaining > 0 ==>
                  && row.payment == pay && row.principal == (if pay > row.interest then pay - row.interest else 1)
                  && (row.payment == row.principal + row.interest <==> pay > row.interest || pay == row.interest + 1))
            && (row.remaining <= 0 ==> row.remaining == 0 && row.payment == owed + row.interest)
  {
    hide Round, FixedFrom, ValidDate;
    FixedRowIs(left, r, pay, i, day, start, k);
  }

  // ---------------------------------------------------------------- totals

  /** What is owed before row i of even parts. */
  function Owed(p: int, part: int, i: nat): int {
    p - i * part
  }

  /** The same over the first k rows. */
  function OwedSum(p: int, part: int, k: nat): int {
    if k == 0 then 0 else OwedSum(p, part, k - 1) + Owed(p, part, k - 1)
  }

  lemma {:induction false} PairsEven(n: nat)
    ensures n * (n - 1) == 2 * (n * (n - 1) / 2)
  {
    if n > 0 {
      PairsEven(n - 1);
      assert n * (n - 1) == (n - 1) * (n - 2) + 2 * (n - 1);
    }
  }

  lemma {:induction false} OwedSumIs(p: int, part: int, k: nat)
    ensures OwedSum(p, part, k) == k * p - part * (k * (k - 1) / 2)
  {
    if k > 0 {
      OwedSumIs(p, part, k - 1);
      PairsEven(k);
      PairsEven(k - 1);
      assert k * (k - 1) == (k - 1) * (k - 2) + 2 * (k - 1);
      MoreParts(part, (k - 1) * (k - 2) / 2, k - 1);
      assert k * p == (k - 1) * p + p;
    }
  }

  lemma MoreParts(part: int, pairs: int, more: int)
    ensures part * (pairs + more) == part * pairs + more * part
  {}

  /** Within half a cent for each of k roundings. */
  predicate WithinHalves(total: int, exact: real, k: nat) {
    Abs(total as real - exact) <= k as real / 2.0
  }

  lemma ShareAdds(sum: int, balance: int, annualRate: real)
    ensures MonthShare(sum + balance, annualRate) == MonthShare(sum, annualRate) + MonthShare(balance, annualRate)
  {
    var a, b := sum as real, balance as real;
    assert (a + b) * annualRate == a * annualRate + b * annualRate;
  }

  lemma WithinStep(total: int, sum: int, k: nat, interest: int, balance: int, annualRate: real)
    requires WithinHalves(total, MonthShare(sum, annualRate), k) && interest == Round(MonthShare(balance, annualRate))
    ensures WithinHalves(total + interest, MonthShare(sum + balance, annualRate), k + 1)
  {
    ShareAdds(sum, balance, annualRate);
    RoundNear(MonthShare(balance, annualRate));
    hide MonthShare, Round;
  }

  lemma NoneWithin(annualRate: real)
    ensures WithinHalves(0, MonthShare(0, annualRate), 0)
  {}

  lemma {:induction false} RowsNearBalances(t: Terms, k: nat)
    requires Generates(t) && t.plan == EqualPrincipal && k <= t.months
    ensures |Amortise(t)| == t.months
    ensures WithinHalves(SumInterest(Amortise(t)[..k]),
                         MonthShare(OwedSum(t.principal, EvenPart(t), k), t.annualRate), k)
  {
    hide WithinHalves, MonthShare, EvenPart, Owed, Round, ItemAt, SumPrincipal;
    if k > 0 {
      RowsNearBalances(t, k - 1);
      EvenPrincipalCharges(t, k - 1);
      OwedIs(t, k - 1);
      assert Amortise(t)[..k][..k - 1] == Amortise(t)[..k - 1];
      hide Amortise;
      WithinStep(SumInterest(Amortise(t)[..k - 1]), OwedSum(t.principal, EvenPart(t), k - 1), k - 1,
                 Amortise(t)[k - 1].interest, Owed(t.principal, EvenPart(t), k - 1), t.annualRate);
    } else {
      NoneWithin(t.annualRate);
    }
  }

  lemma OwedIs(t: Terms, i: nat)
    requires Generates(t) && t.plan == EqualPrincipal && i < t.months
    ensures t.principal - SumPrincipal(Amortise(t)[..i]) == Owed(t.principal, EvenPart(t), i)
  {
    hide EvenPart, Amortise;
    PrefixPrincipal(t, i);
  }

  /** Even principal in all: the month's share of n principals less n (n - 1) / 2 parts, within half a cent a row. */
  lemma EvenPrincipalTotal(t: Terms)
    requires Generates(t) && t.plan == EqualPrincipal
    ensures var n, part := t.months, Amortise(t)[0].principal;
            var balances := n * t.principal - part * (n * (n - 1) / 2);
            Abs(SumInterest(Amortise(t)) as real - MonthShare(balances, t.annualRate)) <= n as real / 2.0
  {
    var n := t.months;
    RowsNearBalances(t, n);
    OwedSumIs(t.principal, EvenPart(t), n);
    assert Amortise(t)[..n] == Amortise(t);
    if n > 1 {
      FirstPart(t);
    }
    hide Amortise, EvenPart, MonthShare, OwedSum, Abs;
    NoParts(EvenPart(t), Amortise(t)[0].principal);
  }

  lemma NoParts(part: int, other: int)
    ensures part * (1 * (1 - 1) / 2) == other * (1 * (1 - 1) / 2)
  {}

  lemma FirstPart(t: Terms)
    requires Generates(t) && t.plan == EqualPrincipal && t.months > 1
    ensures Amortise(t)[0].principal == EvenPart(t)
  {
    hide Round, MonthlyRate, DueDate, ValidDate, Interest, EvenPart;
    assert Amortise(t)[0] == EvenItem(t, 0);
  }

  /** Rows of equal interest in all. */
  lemma {:induction false} EqualSums(items: seq<Item>, interest: int)
    requires forall i :: 0 <= i < |items| ==> items[i].interest == interest
    ensures SumInterest(items) == |items| * interest
  {
    if items != [] {
      EqualSums(items[..|items| - 1], interest);
    }
  }

  /** Plans that charge the whole principal every month: n times one month's interest. */
  lemma WholePrincipalTotal(t: Terms)
    requires Generates(t) && (t.plan == EqualInterest || (t.plan == InterestOnly && t.accrual == Monthly))
    ensures SumInterest(Amortise(t)) == t.months * Round(MonthShare(t.principal, t.annualRate))
    ensures Abs(SumInterest(Amortise(t)) as real - MonthsShare(t.principal, t.annualRate, t.months))
            <= t.months as real / 2.0
  {
    hide Round, MonthShare, ItemAt, Abs;
    forall i | 0 <= i < t.months
      ensures Amortise(t)[i].interest == Round(MonthShare(t.principal, t.annualRate))
    {
      WholePrincipalCharges(t, i);
    }
    EqualSums(Amortise(t), Round(MonthShare(t.principal, t.annualRate)));
    hide Amortise;
    RoundNear(MonthShare(t.principal, t.annualRate));
    TimesRounded(t.months, Round(MonthShare(t.principal, t.annualRate)), MonthShare(t.principal, t.annualRate));
  }

  lemma {:induction false} FallingSums(items: seq<Item>, first: int, step: int)
    requires forall i :: 0 <= i < |items| ==> items[i].interest == Owed(first, step, i)
    ensures SumInterest(items) == OwedSum(first, step, |items|)
  {
    hide Owed;
    if items != [] {
      FallingSums(items[..|items| - 1], first, step);
    }
  }

  function YearOf(plan: Plan): Terms {
    Terms(1_200_000, 12.0, 12, plan, 15, Date(2024, 1, 1), Monthly)
  }

  lemma YearOfTerms(t: Terms, plan: Plan)
    requires t == YearOf(plan)
    ensures Generates(t) && t.plan == plan && t.principal == 1_200_000 && t.months == 12 && t.annualRate == 12.0
    ensures t.accrual == Monthly
    ensures EvenPart(t) == 100_000
  {
    assert 1_200_000.0 / 12.0 == 100_000.0;
  }

  lemma OnePercent(balance: int)
    ensures Round(MonthShare(100 * balance, 12.0)) == balance
  {
    assert MonthShare(100 * balance, 12.0) == balance as real;
    RoundExact(balance);
  }

  lemma OnePercentRow(t: Terms, i: nat)
    requires t == YearOf(EqualPrincipal) && i < t.months
    ensures Generates(t) && Amortise(t)[i].interest == Owed(12_000, 1_000, i)
  {
    YearOfTerms(t, EqualPrincipal);
    hide YearOf, Amortise, EvenPart, MonthShare, Round;
    EvenPrincipalCharges(t, i);
    OwedIs(t, i);
    OnePercent(Owed(12_000, 1_000, i));
  }

  /** Twelve thousand yuan over a year at one percent a month: with even principal the second row charges 110 yuan and
      all rows 780; with even interest 120 every month and 1440 in all. */
  lemma EvenAgainstFlat()
    ensures Generates(YearOf(EqualPrincipal)) && Generates(YearOf(EqualInterest))
    ensures |Amortise(YearOf(EqualPrincipal))| == |Amortise(YearOf(EqualInterest))| == 12
    ensures Amortise(YearOf(EqualPrincipal))[1].interest == 11_000
    ensures SumInterest(Amortise(YearOf(EqualPrincipal))) == 78_000
    ensures Amortise(YearOf(EqualInterest))[1].interest == 12_000
    ensures SumInterest(Amortise(YearOf(EqualInterest))) == 144_000
  {
    hide *;
    EvenYear(YearOf(EqualPrincipal));
    FlatYear(YearOf(EqualInterest));
  }

  lemma EvenYear(t: Terms)
    requires t == YearOf(EqualPrincipal)
    ensures Generates(t) && |Amortise(t)| == 12 && Amortise(t)[1].interest == 11_000
    ensures SumInterest(Amortise(t)) == 78_000
  {
    YearOfTerms(t, EqualPrincipal);
    hide YearOf, EvenPart, MonthShare, Round, ItemAt, SumInterest, OwedSum;
    forall i | 0 <= i < 12
      ensures Amortise(t)[i].interest == Owed(12_000, 1_000, i)
    {
      OnePercentRow(t, i);
    }
    hide Amortise;
    AllRows(t);
    FallingSums(Amortise(t), 12_000, 1_000);
    OwedSumIs(12_000, 1_000, 12);
  }

  lemma AllRows(t: Terms)
    requires Generates(t)
    ensures |Amortise(t)| == t.months
  {}

  lemma FlatYear(t: Terms)
    requires t == YearOf(EqualInterest)
    ensures Generates(t) && |Amortise(t)| == 12 && Amortise(t)[1].interest == 12_000
    ensures SumInterest(Amortise(t)) == 144_000
  {
    YearOfTerms(t, EqualInterest);
    hide YearOf, EvenPart, MonthShare, Round, ItemAt, SumInterest, Amortise;
    AllRows(t);
    WholePrincipalTotal(t);
    WholePrincipalCharges(t, 1);
    OnePercent(12_000);
  }
}
