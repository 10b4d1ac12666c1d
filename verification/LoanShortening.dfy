/** What shortening a loan (REDUCE_MONTHS) does to its length and to the payment of the next shortening. */
module LoanShortening {
  import opened Money
  import opened Calendar
  import opened Schedule
  import opened Amortization
  import opened FixedPlan
  import opened LoanTables
  import opened LoanLifecycle
  import opened LoanConditions

  /** Whether `rest` is repaid within the months that remain; nothing but the panicking plan is excluded. */
  predicate FitsRemaining(loan: Loan, rest: int)
    requires CanRegenerate(loan) && loan.plan != EqualInterest && rest > 0 && loan.paidMonths <= loan.totalMonths
  {
    var months := loan.totalMonths - loan.paidMonths;
    match loan.plan
    case EqualInstallment =>
      months >= MONTH_CAP || FixedLeft(rest, MonthlyRate(loan.annualRate), KeptPayment(loan), months) == 0
    case EqualPrincipal =>
      var part := Round(loan.principal as real / loan.totalMonths as real);
      months >= 1 && (part == 0 || rest <= months * part)
    case _ => true
  }

  /** The code never compares the new length with the old. The loan is not lengthened exactly when
      the rest fits the months that remain; if it is, months_reduced reads zero. */
  lemma ShortensExactly(b: Book, amount: int)
    requires Valid(b) && PrepayResult(b, amount, ReduceMonths).Some? && amount < b.loan.remaining
    ensures b.loan.plan != EqualInterest && b.loan.totalMonths > 0
    ensures var result := PrepayResult(b, amount, ReduceMonths).value;
            && (result.newTotalMonths <= b.loan.totalMonths <==> FitsRemaining(b.loan, b.loan.remaining - amount))
            && result.monthsReduced == AtLeastZero(b.loan.totalMonths - result.newTotalMonths)
  {
    hide Calculation, FitsRemaining, Numbered, ValidDate, NextUnpaidDue, FirstOfMonth, ShorterSchedule, Amortise,
         Repays, Closes;
    PrepaymentSchedule(b, amount, ReduceMonths);
    PrepaymentItems(b, amount, ReduceMonths);
    ReducedMonths(b, amount);
    ShorterLength(b.loan, b.loan.remaining - amount, FirstOfMonth(NextUnpaidDue(b.rows, b.loan.start)));
  }

  lemma ReducedMonths(b: Book, amount: int)
    requires Valid(b) && PrepayResult(b, amount, ReduceMonths).Some?
    ensures var result := PrepayResult(b, amount, ReduceMonths).value;
            result.monthsReduced == AtLeastZero(b.loan.totalMonths - b.loan.paidMonths - |result.newSchedule|)
  {
    hide NewSchedule, Numbered, ValidDate, NextUnpaidDue, FirstOfMonth;
  }

  lemma ShorterLength(loan: Loan, rest: int, start: Date)
    requires CanRegenerate(loan) && ValidDate(start) && rest > 0 && loan.paidMonths <= loan.totalMonths
    requires loan.principal > 0
    ensures ShorterSchedule(loan, rest, start).Some? <==> loan.plan != EqualInterest
    ensures loan.plan != EqualInterest ==>
              (|ShorterSchedule(loan, rest, start).value| <= loan.totalMonths - loan.paidMonths <==>
               FitsRemaining(loan, rest))
  {
    hide KeptPayment, FixedFrom, ValidDate, FixedLeft, Round, ItemAt;
    var months := loan.totalMonths - loan.paidMonths;
    if loan.plan == EqualInstallment {
      FixedLength(rest, MonthlyRate(loan.annualRate), KeptPayment(loan), 0, loan.day, start, months);
    } else if loan.plan == EqualPrincipal {
      ShareNonNegative(loan.principal, loan.totalMonths);
      EvenMonthsFit(rest, Round(loan.principal as real / loan.totalMonths as real), months);
    }
  }

  lemma EvenMonthsFit(rest: int, part: int, months: int)
    requires rest > 0 && part >= 0
    ensures EvenMonths(rest, part) >= 1
    ensures EvenMonths(rest, part) <= months <==> months >= 1 && (part == 0 || rest <= months * part)
  {
    if part > 0 {
      CeilOfParts(rest, part);
      var n := EvenMonths(rest, part);
      hide EvenMonths, Ceil;
      if n <= months {
        IntMulMonotone(part, n, months);
      } else {
        IntMulMonotone(part, months, n - 1);
      }
    }
  }

  /** In closed form for a level loan: it is not lengthened if the months that remain clear the rest at the
      first month's pace, and only if they do at the full payment. */
  lemma LevelShortens(loan: Loan, rest: int)
    requires CanRegenerate(loan) && loan.plan == EqualInstallment && rest > 0 && loan.paidMonths <= loan.totalMonths
    ensures var r, pay, months := MonthlyRate(loan.annualRate), KeptPayment(loan), loan.totalMonths - loan.paidMonths;
            && (pay > Interest(rest, r) && rest <= months * (pay - Interest(rest, r)) ==> FitsRemaining(loan, rest))
            && (FitsRemaining(loan, rest) ==> months >= MONTH_CAP || rest <= months * MostAMonth(pay))
  {
    hide Interest, FixedLeft, KeptPayment;
    RateOfLoan(loan.annualRate);
    PaceBounds(rest, MonthlyRate(loan.annualRate), KeptPayment(loan), loan.totalMonths - loan.paidMonths);
  }

  // ---------------------------------------------------------------- the payment

  /** A shorter term has the larger annuity. */
  lemma AnnuityFalls(p: int, r: real, m: nat, n: nat)
    requires p >= 0 && r >= 0.0 && 0 < m <= n
    ensures Annuity(p, r, m) >= Annuity(p, r, n)
  {
    if r == 0.0 {
      ShareFalls(p as real, m as real, n as real);
    } else {
      PowAtLeastOne(1.0 + r, m);
      PowAtLeastOne(1.0 + r, n);
      PowMonotone(1.0 + r, m, n);
      GrownPaymentFalls(p as real, r, Pow(1.0 + r, m), Pow(1.0 + r, n));
    }
  }

  lemma ShareFalls(p: real, m: real, n: real)
    requires p >= 0.0 && 0.0 < m <= n
    ensures p / m >= p / n
  {
    var share := p / n;
    assert share * n == p;
    MulLeft(share, m, n);
    DivMonotone(share * m, p, m);
    assert share * m / m == share;
  }

  lemma GrownPaymentFalls(p: real, r: real, a: real, b: real)
    requires p >= 0.0 && r >= 0.0 && 1.0 < a <= b
    ensures GrownPayment(p, r, a) >= GrownPayment(p, r, b)
  {
    var base := p * r;
    MulLeft(r, 0.0, p);
    OverOne(base, a);
    OverOne(base, b);
    ShareFalls(base, a - 1.0, b - 1.0);
  }

  lemma OverOne(base: real, g: real)
    requires g > 1.0
    ensures base * g / (g - 1.0) == base + base / (g - 1.0)
  {
    var d := g - 1.0;
    var sum := base + base / d;
    assert sum * d == base * d + base / d * d;
    assert sum * d == base * g;
    assert sum * d / d == sum;
  }

  /** The kept payment is computed anew from total_months, so after a shortening the next one keeps a payment
      at least as large. */
  lemma PaymentNeverFalls(b: Book, amount: int)
    requires Valid(b) && PrepayResult(b, amount, ReduceMonths).Some?
    requires 0 < PrepayResult(b, amount, ReduceMonths).value.newTotalMonths <= b.loan.totalMonths
    ensures var after := Prepaid(b, PrepayResult(b, amount, ReduceMonths).value);
            KeptPayment(after.loan) >= KeptPayment(b.loan)
  {
    hide Calculation, Annuity, Round, MonthlyRate;
    var r := MonthlyRate(b.loan.annualRate);
    var n := PrepayResult(b, amount, ReduceMonths).value.newTotalMonths;
    RateOfLoan(b.loan.annualRate);
    AnnuityFalls(b.loan.principal, r, n, b.loan.totalMonths);
    RoundMonotone(Annuity(b.loan.principal, r, b.loan.totalMonths), Annuity(b.loan.principal, r, n));
  }

  /** A shorter term has the strictly larger annuity. */
  lemma AnnuityFallsStrictly(p: int, r: real, m: nat, n: nat)
    requires p > 0 && r >= 0.0 && 0 < m < n
    ensures Annuity(p, r, m) > Annuity(p, r, n)
  {
    if r == 0.0 {
      ShareFallsStrictly(p as real, m as real, n as real);
    } else {
      var x := 1.0 + r;
      PowAtLeastOne(x, m);
      PowAtLeastOne(x, n);
      PowMonotone(x, m + 1, n);
      PowStep(x, m);
      GrownPaymentFallsStrictly(p as real, r, Pow(x, m), Pow(x, n));
    }
  }

  lemma ShareFallsStrictly(p: real, m: real, n: real)
    requires p > 0.0 && 0.0 < m < n
    ensures p / m > p / n
  {
    var large, small := p / m, p / n;
    QuotientBack(p, n);
    assert large * m == small * n;
    assert small * (n - m) > 0.0;
    assert (large - small) * m > 0.0;
  }

  lemma GrownPaymentFallsStrictly(p: real, r: real, a: real, b: real)
    requires p > 0.0 && r > 0.0 && 1.0 < a && (1.0 + r) * a <= b
    ensures GrownPayment(p, r, a) > GrownPayment(p, r, b)
  {
    var base := p * r;
    assert base > 0.0;
    assert a < b by {
      assert r * a > 0.0;
    }
    OverOne(base, a);
    OverOne(base, b);
    ShareFallsStrictly(base, a - 1.0, b - 1.0);
  }

  lemma AnnuityNonNegative(p: int, r: real, n: nat)
    requires p >= 0 && r >= 0.0 && n > 0
    ensures Annuity(p, r, n) >= 0.0
  {
    if r == 0.0 {
      DivMonotone(0.0, p as real, n as real);
    } else {
      PowAtLeastOne(1.0 + r, n);
      MulLeft(r, 0.0, p as real);
      GrownPaymentCovers(p as real, r, Pow(1.0 + r, n));
    }
  }

  /** Where rounding lands, around a whole number of cents. */
  lemma RoundAround(v: real, w: real, k: int)
    requires v >= 0.0 && w >= 0.0
    ensures Round(v) > k <==> v >= k as real + 0.5
    ensures Round(v) < k <==> v < k as real - 0.5
    ensures v >= w + 1.0 ==> Round(v) > Round(w)
    ensures Abs((Round(v) - Round(w)) as real - (v - w)) <= 1.0
  {}

  /** When the kept payment moves: it is larger after the shortening exactly when the annuity over the new number
      of months reaches the half cent above it, smaller exactly when that falls short of the half cent below.
      The exact annuity grows whenever the loan gets shorter, so only rounding keeps the payment where it was,
      and a whole cent always shows. */
  lemma PaymentGrowsExactly(b: Book, amount: int)
    requires Valid(b) && PrepayResult(b, amount, ReduceMonths).Some?
    requires PrepayResult(b, amount, ReduceMonths).value.newTotalMonths > 0
    ensures CanRegenerate(b.loan)
    ensures var loan, after := b.loan, Prepaid(b, PrepayResult(b, amount, ReduceMonths).value).loan;
            var kept, next := KeptPayment(loan), KeptPayment(after);
            var r := MonthlyRate(loan.annualRate);
            var before := Annuity(loan.principal, r, loan.totalMonths);
            var now := Annuity(loan.principal, r, after.totalMonths);
            && (next > kept <==> now >= kept as real + 0.5)
            && (next < kept <==> now < kept as real - 0.5)
            && (after.totalMonths < loan.totalMonths ==> now > before)
            && (now >= before + 1.0 ==> next > kept)
            && Abs((next - kept) as real - (now - before)) <= 1.0
            && (loan.annualRate == 0.0 ==> (next > kept <==> 2 * loan.principal >= after.totalMonths * (2 * kept + 1)))
  {
    hide Calculation, Annuity, Round, MonthlyRate, Numbered, ValidDate, Abs;
    var r := MonthlyRate(b.loan.annualRate);
    var p, n, after := b.loan.principal, b.loan.totalMonths, PrepayResult(b, amount, ReduceMonths).value.newTotalMonths;
    RateOfLoan(b.loan.annualRate);
    AnnuityNonNegative(p, r, n);
    AnnuityNonNegative(p, r, after);
    RoundAround(Annuity(p, r, after), Annuity(p, r, n), Round(Annuity(p, r, n)));
    if after < n {
      AnnuityFallsStrictly(p, r, after, n);
    }
    if b.loan.annualRate == 0.0 {
      FreeShare(p, after, Round(Annuity(p, r, n)));
    }
  }

  /** Without interest: a share of p over n months against k and a half. */
  lemma FreeShare(p: int, n: nat, k: int)
    requires n > 0
    ensures MonthlyRate(0.0) == 0.0
    ensures Annuity(p, MonthlyRate(0.0), n) >= k as real + 0.5 <==> 2 * p >= n * (2 * k + 1)
  {
    var share, half, twice := p as real / n as real, k as real + 0.5, n * (2 * k + 1);
    TimesBack(p as real, n as real);
    HalfTimes(n, k);
    HalfCent(share, half, n as real, p, twice);
    assert Annuity(p, MonthlyRate(0.0), n) == share;
  }

  lemma HalfCent(share: real, half: real, size: real, p: int, twice: int)
    requires size > 0.0 && share * size == p as real && half * size == twice as real / 2.0
    ensures share >= half <==> 2 * p >= twice
  {
    SameOrder(share, half, size);
  }

  lemma TimesBack(p: real, n: real)
    requires n > 0.0
    ensures p / n * n == p
  {}

  lemma HalfTimes(n: int, k: int)
    ensures (k as real + 0.5) * n as real == (n * (2 * k + 1)) as real / 2.0
  {
    ProductAsReal(n, 2 * k + 1);
  }

  lemma SameOrder(a: real, b: real, size: real)
    requires size > 0.0
    ensures a >= b <==> a * size >= b * size
  {
    if a >= b {
      MulLeft(size, b, a);
    } else {
      assert (b - a) * size > 0.0;
    }
  }
}
