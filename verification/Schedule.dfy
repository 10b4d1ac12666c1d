/** Amortization schedules (server/internal/loan/service.go, generateSchedule). */
module Schedule {
  import opened Money
  import opened Calendar

  datatype Plan = EqualInstallment | EqualPrincipal | InterestOnly | Bullet | EqualInterest

  datatype InterestCalc = Monthly | DailyAct365 | DailyAct360

  datatype Item = Item(payment: int, principal: int, interest: int, remaining: int, due: Date)

  /** The arguments of the generator. */
  datatype Terms = Terms(principal: int, annualRate: real, months: int, plan: Plan,
                         day: int, start: Date, accrual: InterestCalc)

  ghost predicate ValidTerms(t: Terms) {
    t.annualRate >= 0.0 && t.day >= 1 && ValidDate(t.start)
  }

  ghost predicate Generates(t: Terms) {
    ValidTerms(t) && t.principal > 0 && t.months > 0
  }

  function MonthlyRate(annualRate: real): real {
    annualRate / 100.0 / 12.0
  }

  function DailyRate(annualRate: real, accrual: InterestCalc): real {
    if accrual == DailyAct360 then annualRate / 100.0 / 360.0 else annualRate / 100.0 / 365.0
  }

  lemma RateNonNegative(t: Terms)
    requires ValidTerms(t)
    ensures MonthlyRate(t.annualRate) >= 0.0
  {}

  /** One period's interest on a balance, in whole cents. */
  function Interest(balance: int, r: real): int {
    Round(balance as real * r)
  }

  /** Interest is monotone in the balance, and never negative on a non-negative one. */
  lemma InterestMonotone(a: int, b: int, r: real)
    requires a <= b && r >= 0.0
    ensures Interest(a, r) <= Interest(b, r)
    ensures a >= 0 ==> Interest(a, r) >= 0
  {
    MulLeft(r, a as real, b as real);
    RoundMonotone(a as real * r, b as real * r);
    if a >= 0 {
      MulLeft(r, 0.0, a as real);
      RoundMonotone(0.0, a as real * r);
    }
  }

  lemma InterestIsRounded(balance: int, x: real, r: real)
    requires x == balance as real
    ensures Interest(balance, r) == Round(x * r)
  {}

  function Accrual(principal: int, rate: real, periods: int): real {
    principal as real * rate * periods as real
  }

  /** Simple interest on a principal for a number of periods. */
  function SimpleInterest(principal: int, rate: real, periods: int): int {
    Round(Accrual(principal, rate, periods))
  }

  /** Every due date the loops ask for lies after year 0. */
  lemma DueMonthInRange(t: Terms, i: nat)
    requires ValidTerms(t)
    ensures DueMonth(t.start, i, t.day) >= 12
    ensures ValidDate(DueDate(t.start, i, t.day))
  {}

  // ---------------------------------------------------------------- equal installments

  /** The exact level payment. */
  function Annuity(principal: int, r: real, n: nat): real
    requires n > 0 && r >= 0.0
  {
    if r == 0.0 then principal as real / n as real
    else
      PowAtLeastOne(1.0 + r, n);
      GrownPayment(principal as real, r, Pow(1.0 + r, n))
  }

  /** P r g / (g - 1) for a growth factor g over the whole term. */
  function GrownPayment(p: real, r: real, growth: real): real
    requires growth > 1.0
  {
    p * r * growth / (growth - 1.0)
  }

  function LevelPayment(t: Terms): int
    requires Generates(t)
  {
    Round(Annuity(t.principal, MonthlyRate(t.annualRate), t.months))
  }

  /** Balance tracked by the loop before payment i: reduced by payment minus rounded interest, clamped at zero. */
  function Left(p: int, r: real, m: int, i: nat): int
    decreases i, 0
  {
    if i == 0 then p
    else
      var after := Left(p, r, m, i - 1) - Part(p, r, m, i - 1);
      if after <= 0 then 0 else after
  }

  function Part(p: int, r: real, m: int, i: nat): int
    decreases i, 1
  {
    m - Interest(Left(p, r, m, i), r)
  }

  /** Principal paid by the first i level payments. */
  function PaidBy(p: int, r: real, m: int, i: nat): int {
    if i == 0 then 0 else PaidBy(p, r, m, i - 1) + Part(p, r, m, i - 1)
  }

  function InstallmentItem(t: Terms, i: nat): Item
    requires Generates(t) && i < t.months
  {
    var p, r, m := t.principal, MonthlyRate(t.annualRate), LevelPayment(t);
    var due := DueDate(t.start, i, t.day);
    if i < t.months - 1 then
      var interest := Interest(Left(p, r, m, i), r);
      Item(m, m - interest, interest, Left(p, r, m, i + 1), due)
    else
      var rest := p - PaidBy(p, r, m, i);
      var interest := Interest(rest, r);
      Item(rest + interest, rest, interest, 0, due)
  }

  method GenerateInstallments(t: Terms) returns (items: seq<Item>)
    requires Generates(t)
    ensures |items| == t.months
    ensures forall i :: 0 <= i < t.months ==> items[i] == InstallmentItem(t, i)
  {
    hide Round, Annuity, Interest, SimpleInterest, DailyRate, MonthlyRate, DaysInPeriod, DueDate, DueMonth, ValidDate;
    RateNonNegative(t);
    var r := MonthlyRate(t.annualRate);
    var n := t.months;
    var monthlyPayment := Round(Annuity(t.principal, r, n));
    var buffer := new Item[n](_ => Item(0, 0, 0, 0, t.start));
    var remaining := t.principal as real;
    var totalPrincipalPaid := 0;
    var i := 0;
    while i < n
      invariant 0 <= i <= n
      invariant i < n ==> remaining == Left(t.principal, r, monthlyPayment, i) as real
      invariant i < n ==> totalPrincipalPaid == PaidBy(t.principal, r, monthlyPayment, i)
      invariant forall k :: 0 <= k < i ==> buffer[k].(remaining := 0) == InstallmentItem(t, k).(remaining := 0)
      invariant forall k :: 0 <= k < i && k < n - 1 ==> buffer[k] == InstallmentItem(t, k)
    {
      DueMonthInRange(t, i);
      var due := AdvanceMonths(t.start, i, t.day);
      ghost var left := Left(t.principal, r, monthlyPayment, i);
      if i < n - 1 {
        InterestIsRounded(left, remaining, r);
      }
      var interest := Round(remaining * r);
      var part;
      if i == n - 1 {
        part := t.principal - totalPrincipalPaid;
        interest := Interest(t.principal - totalPrincipalPaid, r);
      } else {
        part := monthlyPayment - interest;
      }
      var payment := part + interest;
      if i < n - 1 {
        payment := monthlyPayment;
      }
      remaining := remaining - part as real;
      assert i < n - 1 ==> remaining == (left - part) as real && part == Part(t.principal, r, monthlyPayment, i);
      if remaining < 0.5 {
        remaining := 0.0;
      }
      totalPrincipalPaid := totalPrincipalPaid + part;
      RoundExact(Left(t.principal, r, monthlyPayment, i + 1));
      buffer[i] := Item(payment, part, interest, Round(remaining), due);
      i := i + 1;
    }
    buffer[n - 1] := buffer[n - 1].(remaining := 0);
    items := buffer[..];
  }

  // ---------------------------------------------------------------- equal principal, equal interest

  function EvenPart(t: Terms): int
    requires Generates(t)
  {
    Round(t.principal as real / t.months as real)
  }

  function EvenItem(t: Terms, i: nat): Item
    requires Generates(t) && i < t.months
  {
    var r := MonthlyRate(t.annualRate);
    var before := t.principal - i * EvenPart(t);
    var part := if i == t.months - 1 then before else EvenPart(t);
    var base := if t.plan == EqualInterest then t.principal else before;
    var interest := Interest(base, r);
    Item(part + interest, part, interest, before - part, DueDate(t.start, i, t.day))
  }

  method GenerateEqualPrincipal(t: Terms) returns (items: seq<Item>)
    requires Generates(t) && t.plan == EqualPrincipal
    ensures |items| == t.months
    ensures forall i :: 0 <= i < t.months ==> items[i] == EvenItem(t, i)
  {
    hide Round, Interest, SimpleInterest, DailyRate, MonthlyRate, DaysInPeriod, DueDate, DueMonth, ValidDate;
    var r := MonthlyRate(t.annualRate);
    var n := t.months;
    var monthlyPrincipal := Round(t.principal as real / n as real);
    var buffer := new Item[n](_ => Item(0, 0, 0, 0, t.start));
    var remaining := t.principal;
    var i := 0;
    while i < n
      invariant 0 <= i <= n
      invariant i < n ==> remaining == t.principal - i * EvenPart(t)
      invariant forall k :: 0 <= k < i ==> buffer[k] == EvenItem(t, k)
    {
      DueMonthInRange(t, i);
      var due := AdvanceMonths(t.start, i, t.day);
      var interest := Interest(remaining, r);
      var part := monthlyPrincipal;
      if i == n - 1 {
        part := remaining;
      }
      remaining := remaining - part;
      assert (i + 1) * EvenPart(t) == i * EvenPart(t) + EvenPart(t);
      buffer[i] := Item(part + interest, part, interest, remaining, due);
      i := i + 1;
    }
    items := buffer[..];
  }

  method GenerateEqualInterest(t: Terms) returns (items: seq<Item>)
    requires Generates(t) && t.plan == EqualInterest
    ensures |items| == t.months
    ensures forall i :: 0 <= i < t.months ==> items[i] == EvenItem(t, i)
  {
    hide Round, Interest, SimpleInterest, DailyRate, MonthlyRate, DaysInPeriod, DueDate, DueMonth, ValidDate;
    var n := t.months;
    var monthlyPrincipal := Round(t.principal as real / n as real);
    var monthlyInterest := Interest(t.principal, MonthlyRate(t.annualRate));
    var buffer := new Item[n](_ => Item(0, 0, 0, 0, t.start));
    var remaining := t.principal;
    var i := 0;
    while i < n
      invariant 0 <= i <= n
      invariant i < n ==> remaining == t.principal - i * EvenPart(t)
      invariant forall k :: 0 <= k < i ==> buffer[k] == EvenItem(t, k)
    {
      DueMonthInRange(t, i);
      var due := AdvanceMonths(t.start, i, t.day);
      var part := monthlyPrincipal;
      if i == n - 1 {
        part := remaining;
      }
      remaining := remaining - part;
      assert (i + 1) * EvenPart(t) == i * EvenPart(t) + EvenPart(t);
      buffer[i] := Item(part + monthlyInterest, part, monthlyInterest, remaining, due);
      i := i + 1;
    }
    items := buffer[..];
  }

  // ---------------------------------------------------------------- interest only, bullet

  /** Interest on the untouched principal for period i, by actual days. */
  function DailyInterest(t: Terms, i: nat): int
    requires Generates(t)
  {
    SimpleInterest(t.principal, DailyRate(t.annualRate, t.accrual), PeriodDays(t.start, i, t.day))
  }

  function InterestOnlyItem(t: Terms, i: nat): Item
    requires Generates(t) && i < t.months
  {
    var interest := if t.accrual == Monthly then Interest(t.principal, MonthlyRate(t.annualRate))
                    else DailyInterest(t, i);
    var part := if i == t.months - 1 then t.principal else 0;
    Item(part + interest, part, interest, t.principal - part, DueDate(t.start, i, t.day))
  }

  method GenerateInterestOnly(t: Terms) returns (items: seq<Item>)
    requires Generates(t)
    ensures |items| == t.months
    ensures forall i :: 0 <= i < t.months ==> items[i] == InterestOnlyItem(t, i)
  {
    hide Round, Interest, SimpleInterest, DailyRate, MonthlyRate, DaysInPeriod, DueDate, DueMonth, ValidDate;
    var n := t.months;
    var buffer := new Item[n](_ => Item(0, 0, 0, 0, t.start));
    var i := 0;
    while i < n
      invariant 0 <= i <= n
      invariant forall k :: 0 <= k < i ==> buffer[k] == InterestOnlyItem(t, k)
    {
      DueMonthInRange(t, i);
      var due := AdvanceMonths(t.start, i, t.day);
      var interest;
      if t.accrual != Monthly {
        var periodStart := t.start;
        if i != 0 {
          DueMonthInRange(t, i - 1);
          periodStart := AdvanceMonths(t.start, i - 1, t.day);
        }
        var days := DaysInPeriod(periodStart, due);
        if days <= 0 {
          days := 30;
        }
        interest := SimpleInterest(t.principal, DailyRate(t.annualRate, t.accrual), days);
      } else {
        interest := Interest(t.principal, MonthlyRate(t.annualRate));
      }
      var part := 0;
      if i == n - 1 {
        part := t.principal;
      }
      buffer[i] := Item(part + interest, part, interest, t.principal - part, due);
      i := i + 1;
    }
    items := buffer[..];
  }

  function AccruedDaily(t: Terms, k: nat): int
    requires Generates(t)
  {
    if k == 0 then 0 else AccruedDaily(t, k - 1) + DailyInterest(t, k - 1)
  }

  function BulletInterest(t: Terms): int
    requires Generates(t)
  {
    if t.accrual == Monthly then SimpleInterest(t.principal, MonthlyRate(t.annualRate), t.months)
    else AccruedDaily(t, t.months)
  }

  function BulletItem(t: Terms, i: nat): Item
    requires Generates(t) && i < t.months
  {
    var due := DueDate(t.start, i, t.day);
    if i == t.months - 1 then Item(t.principal + BulletInterest(t), t.principal, BulletInterest(t), 0, due)
    else Item(0, 0, 0, t.principal, due)
  }

  method GenerateBullet(t: Terms) returns (items: seq<Item>)
    requires Generates(t)
    ensures |items| == t.months
    ensures forall i :: 0 <= i < t.months ==> items[i] == BulletItem(t, i)
  {
    hide Round, Interest, SimpleInterest, DailyRate, MonthlyRate, DaysInPeriod, DueDate, DueMonth, ValidDate;
    var n := t.months;
    var buffer := new Item[n](_ => Item(0, 0, 0, 0, t.start));
    var totalInterest := 0;
    if t.accrual != Monthly {
      var previous := t.start;
      for i := 0 to n
        invariant previous == PeriodStart(t.start, i, t.day)
        invariant totalInterest == AccruedDaily(t, i)
      {
        DueMonthInRange(t, i);
        var due := AdvanceMonths(t.start, i, t.day);
        var days := DaysInPeriod(previous, due);
        if days <= 0 {
          days := 30;
        }
        totalInterest := totalInterest + SimpleInterest(t.principal, DailyRate(t.annualRate, t.accrual), days);
        previous := due;
      }
    } else {
      totalInterest := SimpleInterest(t.principal, MonthlyRate(t.annualRate), n);
    }
    for i := 0 to n
      invariant forall k :: 0 <= k < i ==> buffer[k] == BulletItem(t, k)
    {
      DueMonthInRange(t, i);
      var due := AdvanceMonths(t.start, i, t.day);
      if i == n - 1 {
        buffer[i] := Item(t.principal + totalInterest, t.principal, totalInterest, 0, due);
      } else {
        buffer[i] := Item(0, 0, 0, t.principal, due);
      }
    }
    items := buffer[..];
  }

  // ---------------------------------------------------------------- the generator

  function ItemAt(t: Terms, i: nat): Item
    requires Generates(t) && i < t.months
  {
    match t.plan
    case EqualInstallment => InstallmentItem(t, i)
    case InterestOnly => InterestOnlyItem(t, i)
    case Bullet => BulletItem(t, i)
    case _ => EvenItem(t, i)
  }

  function Amortise(t: Terms): seq<Item>
    requires ValidTerms(t)
  {
    if t.months <= 0 || t.principal <= 0 then []
    else seq(t.months, i requires 0 <= i < t.months => ItemAt(t, i))
  }

  method GenerateSchedule(t: Terms) returns (items: seq<Item>)
    requires ValidTerms(t)
    ensures items == Amortise(t)
  {
    if t.months <= 0 || t.principal <= 0 {
      return [];
    }
    match t.plan {
      case EqualInstallment => items := GenerateInstallments(t);
      case EqualPrincipal => items := GenerateEqualPrincipal(t);
      case InterestOnly => items := GenerateInterestOnly(t);
      case Bullet => items := GenerateBullet(t);
      case EqualInterest => items := GenerateEqualInterest(t);
    }
  }
}
