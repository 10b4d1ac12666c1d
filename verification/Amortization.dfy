/** What the schedules of server/internal/loan/service.go mean: conservation of principal,
    the shape of level payments, and how far cent rounding drifts from the exact annuity. */
module Amortization {
  import opened Money
  import opened Calendar
  import opened Schedule

  function SumPrincipal(items: seq<Item>): int {
    if items == [] then 0
    else SumPrincipal(items[..|items| - 1]) + items[|items| - 1].principal
  }

  function SumInterest(items: seq<Item>): int {
    if items == [] then 0
    else SumInterest(items[..|items| - 1]) + items[|items| - 1].interest
  }

  lemma {:induction false} SumConcat(a: seq<Item>, b: seq<Item>)
    ensures SumPrincipal(a + b) == SumPrincipal(a) + SumPrincipal(b)
    ensures SumInterest(a + b) == SumInterest(a) + SumInterest(b)
  {
    if b == [] {
      assert a + b == a;
    } else {
      SumConcat(a, b[..|b| - 1]);
      assert (a + b)[..|a + b| - 1] == a + b[..|b| - 1];
    }
  }

  lemma SumStep(items: seq<Item>, k: nat)
    requires k < |items|
    ensures SumPrincipal(items[..k + 1]) == SumPrincipal(items[..k]) + items[k].principal
  {
    assert items[..k + 1][..k] == items[..k];
  }

  /** A schedule that repays the principal exactly, records after every row what is still owed,
      and owes nothing only after the last row. */
  ghost predicate Repays(items: seq<Item>, principal: int) {
    && items != []
    && SumPrincipal(items) == principal
    && (forall k :: 0 <= k < |items| ==> items[k].remaining == principal - SumPrincipal(items[..k + 1]))
    && (forall k :: 0 <= k < |items| - 1 ==> items[k].remaining > 0)
  }

  /** A check on the last row alone. */
  predicate Closes(items: seq<Item>) {
    items != [] && items[|items| - 1].principal > 0 && items[|items| - 1].remaining == 0
  }

  // ---------------------------------------------------------------- conservation

  /** Principal repaid before row i, for each plan. */
  function PaidBefore(t: Terms, i: nat): int
    requires Generates(t) && i < t.months
  {
    match t.plan
    case EqualInstallment => PaidBy(t.principal, MonthlyRate(t.annualRate), LevelPayment(t), i)
    case InterestOnly => 0
    case Bullet => 0
    case _ => i * EvenPart(t)
  }

  lemma PaidStep(t: Terms, i: nat)
    requires Generates(t) && i < t.months
    ensures PaidBefore(t, 0) == 0
    ensures ItemAt(t, i).principal ==
            (if i == t.months - 1 then t.principal else PaidBefore(t, i + 1)) - PaidBefore(t, i)
    ensures t.plan != EqualInstallment && i < t.months - 1 ==>
              ItemAt(t, i).remaining == t.principal - PaidBefore(t, i + 1)
    ensures i == t.months - 1 ==> ItemAt(t, i).remaining == 0
  {
    hide Round, Interest, SimpleInterest, DueDate, MonthlyRate, Annuity;
    assert (i + 1) * EvenPart(t) == i * EvenPart(t) + EvenPart(t);
  }

  lemma {:induction false} PrefixPrincipal(t: Terms, k: nat)
    requires Generates(t) && k <= t.months
    ensures SumPrincipal(Amortise(t)[..k]) == if k == t.months then t.principal else PaidBefore(t, k)
  {
    hide ItemAt, PaidBefore;
    PaidStep(t, 0);
    if k > 0 {
      PrefixPrincipal(t, k - 1);
      SumStep(Amortise(t), k - 1);
      PaidStep(t, k - 1);
    }
  }

  /** Every plan repays exactly the principal, and every payment splits into principal and interest. */
  lemma Conserves(t: Terms)
    requires Generates(t)
    ensures |Amortise(t)| == t.months
    ensures SumPrincipal(Amortise(t)) == t.principal
    ensures forall i :: 0 <= i < t.months ==>
              Amortise(t)[i].payment == Amortise(t)[i].principal + Amortise(t)[i].interest
  {
    PrefixPrincipal(t, t.months);
    assert Amortise(t)[..t.months] == Amortise(t);
    forall i | 0 <= i < t.months
      ensures Amortise(t)[i].payment == Amortise(t)[i].principal + Amortise(t)[i].interest
    {
      hide Round, Interest, SimpleInterest, DueDate, MonthlyRate, Annuity;
      assert Amortise(t)[i] == ItemAt(t, i);
    }
  }

  // ---------------------------------------------------------------- level payments

  /** A level payment covers the first month's interest. */
  lemma PaymentCoversInterest(t: Terms)
    requires Generates(t)
    ensures LevelPayment(t) >= Interest(t.principal, MonthlyRate(t.annualRate))
  {
    var r, n := MonthlyRate(t.annualRate), t.months;
    var p := t.principal as real;
    if r == 0.0 {
      assert p * r == 0.0;
      assert Annuity(t.principal, r, n) >= 0.0 by { DivMonotone(0.0, p, n as real); }
    } else {
      PowAtLeastOne(1.0 + r, n);
      GrownPaymentCovers(p, r, Pow(1.0 + r, n));
    }
    RoundMonotone(p * r, Annuity(t.principal, r, n));
  }

  lemma GrownPaymentCovers(p: real, r: real, growth: real)
    requires p >= 0.0 && r >= 0.0 && growth > 1.0
    ensures GrownPayment(p, r, growth) >= p * r
  {
    MulLeft(r, 0.0, p);
    MulLeft(p * r, growth - 1.0, growth);
    DivMonotone(p * r * (growth - 1.0), p * r * growth, growth - 1.0);
    assert p * r * (growth - 1.0) / (growth - 1.0) == p * r;
  }

  /** Once the payment covers the first interest, the balance never grows and never goes negative,
      and each month repays at least as much principal as the month before. */
  lemma {:induction false} BalanceFalls(p: int, r: real, m: int, i: nat)
    requires p >= 0 && r >= 0.0 && m >= Interest(p, r)
    ensures 0 <= Left(p, r, m, i + 1) <= Left(p, r, m, i) <= p
    ensures 0 <= Part(p, r, m, i) <= Part(p, r, m, i + 1)
  {
    hide Interest;
    if i > 0 {
      BalanceFalls(p, r, m, i - 1);
    }
    InterestMonotone(Left(p, r, m, i), p, r);
    assert Part(p, r, m, i) >= 0;
    InterestMonotone(Left(p, r, m, i + 1), Left(p, r, m, i), r);
    assert Part(p, r, m, i + 1) == m - Interest(Left(p, r, m, i + 1), r);
  }

  lemma {:induction false} BalanceFallsFar(p: int, r: real, m: int, i: nat, j: nat)
    requires p >= 0 && r >= 0.0 && m >= Interest(p, r) && i <= j
    ensures 0 <= Left(p, r, m, j) <= Left(p, r, m, i) <= p
    ensures 0 <= PaidBy(p, r, m, i) <= PaidBy(p, r, m, j)
    ensures 0 <= Part(p, r, m, i) <= Part(p, r, m, j)
  {
    hide Interest;
    if j == 0 {
      BalanceFalls(p, r, m, 0);
    } else {
      BalanceFalls(p, r, m, j - 1);
      BalanceFalls(p, r, m, j);
      if i < j {
        BalanceFallsFar(p, r, m, i, j - 1);
      } else {
        BalanceFallsFar(p, r, m, j - 1, j - 1);
      }
    }
  }

  /** Before the final row, interest never rises and principal parts are never negative and never fall. */
  lemma InstallmentShape(t: Terms, i: nat, j: nat)
    requires Generates(t) && t.plan == EqualInstallment && i <= j < t.months - 1
    ensures Amortise(t)[i].interest >= Amortise(t)[j].interest
    ensures 0 <= Amortise(t)[i].principal <= Amortise(t)[j].principal
    ensures Amortise(t)[i].payment == Amortise(t)[j].payment == LevelPayment(t)
  {
    PaymentCoversInterest(t);
    hide Round, Interest, SimpleInterest, DueDate, MonthlyRate, Annuity, LevelPayment;
    RateNonNegative(t);
    BalanceFallsFar(t.principal, MonthlyRate(t.annualRate), LevelPayment(t), i, j);
    assert Amortise(t)[i] == InstallmentItem(t, i) && Amortise(t)[j] == InstallmentItem(t, j);
  }

  /** While money is still owed at the last row, the clamp at zero has never fired. */
  lemma {:induction false} Unclamped(p: int, r: real, m: int, i: nat, j: nat)
    requires p >= 0 && r >= 0.0 && m >= Interest(p, r) && i <= j
    requires p - PaidBy(p, r, m, j) > 0 || Left(p, r, m, j) > 0
    ensures Left(p, r, m, i) == p - PaidBy(p, r, m, i) > 0
  {
    BalanceFallsFar(p, r, m, i, j);
    if i > 0 {
      Unclamped(p, r, m, i - 1, j);
    }
  }

  // ---------------------------------------------------------------- a schedule repays iff its last row closes

  lemma RepaysIfCloses(t: Terms)
    requires Generates(t) && Closes(Amortise(t))
    ensures Repays(Amortise(t), t.principal)
  {
    var items, n := Amortise(t), t.months;
    Conserves(t);
    PaymentCoversInterest(t);
    RateNonNegative(t);
    assert items[n - 1] == ItemAt(t, n - 1);
    PaidStep(t, n - 1);
    forall k | 0 <= k < n
      ensures items[k].remaining == t.principal - SumPrincipal(items[..k + 1])
      ensures k < n - 1 ==> items[k].remaining > 0
    {
      assert items[k] == ItemAt(t, k);
      PrefixPrincipal(t, k + 1);
      PaidStep(t, k);
      if k < n - 1 {
        StillOwed(t, k);
      }
    }
  }

  lemma StillOwed(t: Terms, k: nat)
    requires Generates(t) && k < t.months - 1
    ensures t.principal - PaidBefore(t, t.months - 1) > 0 ==>
              ItemAt(t, k).remaining == t.principal - PaidBefore(t, k + 1) > 0
  {
    if t.principal - PaidBefore(t, t.months - 1) <= 0 {
      return;
    }
    PaidStep(t, k);
    PaymentCoversInterest(t);
    EvenPartNonNegative(t);
    hide Round, Interest, SimpleInterest, DueDate, MonthlyRate, Annuity, LevelPayment, EvenPart;
    RateNonNegative(t);
    if t.plan == EqualInstallment {
      Unclamped(t.principal, MonthlyRate(t.annualRate), LevelPayment(t), k + 1, t.months - 1);
    } else if t.plan == EqualPrincipal || t.plan == EqualInterest {
      IntMulMonotone(EvenPart(t), k + 1, t.months - 1);
    }
  }

  lemma IntMulMonotone(c: int, a: int, b: int)
    requires c >= 0 && a <= b
    ensures a * c <= b * c
  {
    assert (b - a) * c >= 0;
  }

  lemma EvenPartNonNegative(t: Terms)
    requires Generates(t)
    ensures EvenPart(t) >= 0
  {
    DivMonotone(0.0, t.principal as real, t.months as real);
  }

  /** For every plan: the generated schedule repays the loan exactly when its last row does. */
  lemma RepaysIffCloses(t: Terms)
    requires Generates(t)
    ensures Repays(Amortise(t), t.principal) <==> Closes(Amortise(t))
    ensures t.plan == InterestOnly || t.plan == Bullet ==> Closes(Amortise(t))
  {
    hide Round, Interest, SimpleInterest, DueDate, MonthlyRate, Annuity, EvenPart, LevelPayment;
    var items, n := Amortise(t), t.months;
    assert items[n - 1] == ItemAt(t, n - 1);
    PaidStep(t, n - 1);
    if Closes(items) {
      RepaysIfCloses(t);
    }
    if Repays(items, t.principal) && n > 1 {
      assert items[n - 2].remaining > 0;
      SumStep(items, n - 1);
      assert items[..n] == items;
    } else if n == 1 {
      PaidStep(t, 0);
    }
  }

  // ---------------------------------------------------------------- rounding drift

  /** The exact annuity balance after i payments. */
  function ExactBalance(p: int, r: real, n: nat, i: nat): real
    requires r >= 0.0 && n > 0
  {
    if r == 0.0 then LinearBalance(p as real, n, i)
    else
      PowAtLeastOne(1.0 + r, n);
      GrownBalance(p as real, Pow(1.0 + r, n), Pow(1.0 + r, i))
  }

  function LinearBalance(p: real, n: nat, i: nat): real
    requires n > 0
  {
    p * (n - i) as real / n as real
  }

  /** P (g - h) / (g - 1) for a growth factor g over the whole term and h so far. */
  function GrownBalance(p: real, growth: real, soFar: real): real
    requires growth > 1.0
  {
    p * (growth - soFar) / (growth - 1.0)
  }

  /** It starts at the principal and follows the loan recurrence: add interest, subtract the payment. */
  lemma ExactRecurrence(p: int, r: real, n: nat, i: nat)
    requires r >= 0.0 && n > 0
    ensures ExactBalance(p, r, n, 0) == p as real
    ensures ExactBalance(p, r, n, n) == 0.0
    ensures ExactBalance(p, r, n, i + 1) == ExactBalance(p, r, n, i) * (1.0 + r) - Annuity(p, r, n)
  {
    hide GrownBalance, GrownPayment, LinearBalance;
    if r == 0.0 {
      LinearRecurrence(p as real, n, i);
    } else {
      PowAtLeastOne(1.0 + r, n);
      PowStep(1.0 + r, i);
      GrownRecurrence(p as real, r, Pow(1.0 + r, n), Pow(1.0 + r, i), Pow(1.0 + r, i + 1), ExactBalance(p, r, n, i));
    }
  }

  lemma LinearRecurrence(p: real, n: nat, i: nat)
    requires n > 0
    ensures LinearBalance(p, n, 0) == p
    ensures LinearBalance(p, n, n) == 0.0
    ensures LinearBalance(p, n, i + 1) == LinearBalance(p, n, i) - p / n as real
  {
    var months := n as real;
    assert p * (n - (i + 1)) as real == p * (n - i) as real - p;
    ScaleQuotient(p * (n - i) as real, p, months, 1.0);
  }

  lemma GrownRecurrence(p: real, r: real, growth: real, soFar: real, next: real, balance: real)
    requires growth > 1.0 && next == (1.0 + r) * soFar && balance == GrownBalance(p, growth, soFar)
    ensures GrownBalance(p, growth, 1.0) == p
    ensures GrownBalance(p, growth, growth) == 0.0
    ensures GrownBalance(p, growth, next) == balance * (1.0 + r) - GrownPayment(p, r, growth)
  {
    var d, x := growth - 1.0, 1.0 + r;
    var u, v, w := p * (growth - soFar), p * r * growth, p * (growth - next);
    assert w == u * x - v by { PaymentIdentity(p, r, growth, soFar); }
    assert w / d == u / d * x - v / d by { ScaleQuotient(u, v, d, x); }
  }

  lemma PaymentIdentity(a: real, r: real, rn: real, q: real)
    ensures a * (rn - (1.0 + r) * q) == a * (rn - q) * (1.0 + r) - a * r * rn
  {}

  lemma ScaleQuotient(u: real, v: real, d: real, x: real)
    requires d > 0.0
    ensures (u * x - v) / d == u / d * x - v / d
  {
    assert (u * x) / d == u / d * x;
  }

  lemma {:induction false} ExactNonNegative(p: int, r: real, n: nat, i: nat)
    requires r >= 0.0 && n > 0 && p >= 0 && i <= n
    ensures ExactBalance(p, r, n, i) >= 0.0
  {
    hide GrownBalance, LinearBalance;
    if r == 0.0 {
      LinearNonNegative(p as real, n, i);
    } else {
      PowAtLeastOne(1.0 + r, n);
      PowMonotone(1.0 + r, i, n);
      GrownNonNegative(p as real, Pow(1.0 + r, n), Pow(1.0 + r, i));
    }
  }

  lemma LinearNonNegative(p: real, n: nat, i: nat)
    requires n > 0 && p >= 0.0 && i <= n
    ensures LinearBalance(p, n, i) >= 0.0
  {
    MulLeft(p, 0.0, (n - i) as real);
    DivMonotone(0.0, p * (n - i) as real, n as real);
  }

  lemma GrownNonNegative(p: real, growth: real, soFar: real)
    requires growth > 1.0 && p >= 0.0 && soFar <= growth
    ensures GrownBalance(p, growth, soFar) >= 0.0
  {
    MulLeft(p, 0.0, growth - soFar);
    DivMonotone(0.0, p * (growth - soFar), growth - 1.0);
  }

  /** One month's worth of drift: scaled by 1 + r, plus half a cent for each of the two roundings. */
  lemma DriftStep(balance: real, exact: real, r: real, bound: real,
                  interest: real, level: real, payment: real)
    requires r >= 0.0 && Abs(balance - exact) <= bound
    requires Abs(interest - balance * r) <= 0.5 && Abs(level - payment) <= 0.5
    ensures Abs(balance - (level - interest) - (exact * (1.0 + r) - payment)) <= (1.0 + r) * bound + 1.0
  {
    var gap, limit := (1.0 + r) * (balance - exact), (1.0 + r) * bound;
    assert -limit <= gap <= limit by {
      MulLeft(1.0 + r, balance - exact, bound);
      MulLeft(1.0 + r, -bound, balance - exact);
    }
    var dueInterest, grown := balance * r, exact * (1.0 + r);
    assert gap == balance + dueInterest - grown;
  }

  lemma InterestNear(balance: int, r: real)
    ensures Abs(Interest(balance, r) as real - balance as real * r) <= 0.5
  {
    RoundNear(balance as real * r);
  }

  /** The clamp at zero only brings the tracked balance closer to the exact one. */
  lemma TrackedDrift(left: int, exact: real, r: real, bound: real, m: int, payment: real, next: real, nextBound: real)
    requires r >= 0.0 && Abs(left as real - exact) <= bound && Abs(m as real - payment) <= 0.5
    requires next == exact * (1.0 + r) - payment && next >= 0.0
    requires nextBound == (1.0 + r) * bound + 1.0
    ensures var after := left - (m - Interest(left, r));
            Abs((if after <= 0 then 0 else after) as real - next) <= nextBound
  {
    InterestNear(left, r);
    hide Interest;
    DriftStep(left as real, exact, r, bound, Interest(left, r) as real, m as real, payment);
  }

  lemma {:induction false} DriftOfBalance(p: int, r: real, n: nat, i: nat)
    requires r >= 0.0 && n > 0 && p >= 0 && i <= n
    ensures Abs(Left(p, r, Round(Annuity(p, r, n)), i) as real - ExactBalance(p, r, n, i)) <= GeoSum(1.0 + r, i)
  {
    hide Round, Interest, Annuity, ExactBalance, Pow;
    if i == 0 {
      ExactRecurrence(p, r, n, 0);
    } else {
      hide GeoSum, Abs;
      var payment := Annuity(p, r, n);
      var m := Round(payment);
      DriftOfBalance(p, r, n, i - 1);
      ExactRecurrence(p, r, n, i - 1);
      ExactNonNegative(p, r, n, i);
      GeoSumStep(1.0 + r, i - 1);
      RoundNear(payment);
      TrackedDrift(Left(p, r, m, i - 1), ExactBalance(p, r, n, i - 1), r, GeoSum(1.0 + r, i - 1),
                   m, payment, ExactBalance(p, r, n, i), GeoSum(1.0 + r, i));
    }
  }

  /** Every recorded balance before the final row is within 1 + (1+r) + ... + (1+r)^i cents
      of the exact annuity balance after the same i + 1 payments. */
  lemma RoundingDrift(t: Terms, i: nat)
    requires Generates(t) && t.plan == EqualInstallment && i < t.months - 1
    ensures var r := MonthlyRate(t.annualRate);
            Abs(Amortise(t)[i].remaining as real - ExactBalance(t.principal, r, t.months, i + 1))
                <= GeoSum(1.0 + r, i + 1)
  {
    assert Amortise(t)[i] == InstallmentItem(t, i);
    hide ExactBalance, Annuity, Round, Interest, DueDate, MonthlyRate, GeoSum;
    RateNonNegative(t);
    DriftOfBalance(t.principal, MonthlyRate(t.annualRate), t.months, i + 1);
  }

  /** Large enough a payment for the term: the discounted payment exceeds the drift before the last row. */
  ghost predicate OutgrowsDrift(t: Terms)
    requires Generates(t)
  {
    var r := MonthlyRate(t.annualRate);
    Annuity(t.principal, r, t.months) / (1.0 + r) > GeoSum(1.0 + r, t.months - 1)
  }

  lemma OwedBeforeLastRow(p: int, r: real, n: nat)
    requires r >= 0.0 && n > 0 && p >= 0
    requires Annuity(p, r, n) / (1.0 + r) > GeoSum(1.0 + r, n - 1)
    ensures Left(p, r, Round(Annuity(p, r, n)), n - 1) > 0
  {
    hide Round, Interest, Pow, GeoSum, Annuity, ExactBalance;
    DriftOfBalance(p, r, n, n - 1);
    ExactRecurrence(p, r, n, n - 1);
    DivideBack(ExactBalance(p, r, n, n - 1), Annuity(p, r, n), 1.0 + r);
  }

  /** Then the clamp never fires and the final row repays a positive amount. */
  lemma SizeConditionCloses(t: Terms)
    requires Generates(t) && t.plan == EqualInstallment && OutgrowsDrift(t)
    ensures Closes(Amortise(t))
    ensures forall i :: 0 <= i < t.months ==>
              Left(t.principal, MonthlyRate(t.annualRate), LevelPayment(t), i)
              == t.principal - PaidBy(t.principal, MonthlyRate(t.annualRate), LevelPayment(t), i) > 0
  {
    hide Round, Interest, DueDate, ValidDate, MonthlyRate, Pow, GeoSum, Annuity;
    var p, r, n := t.principal, MonthlyRate(t.annualRate), t.months;
    RateNonNegative(t);
    PaymentCoversInterest(t);
    OwedBeforeLastRow(p, r, n);
    forall i | 0 <= i < n
      ensures Left(p, r, LevelPayment(t), i) == p - PaidBy(p, r, LevelPayment(t), i) > 0
    {
      Unclamped(p, r, LevelPayment(t), i, n - 1);
    }
    assert Amortise(t)[n - 1] == InstallmentItem(t, n - 1);
  }

  lemma DivideBack(balance: real, payment: real, x: real)
    requires x > 0.0 && balance * x - payment == 0.0
    ensures balance == payment / x
  {}

  // ---------------------------------------------------------------- where the last row goes wrong

  /** A level schedule closes exactly when something is still owed at the last row: the clamp has not fired. */
  lemma InstallmentClosesExactly(t: Terms)
    requires Generates(t) && t.plan == EqualInstallment
    ensures Closes(Amortise(t)) <==> Left(t.principal, MonthlyRate(t.annualRate), LevelPayment(t), t.months - 1) > 0
    ensures Closes(Amortise(t)) <==>
              PaidBy(t.principal, MonthlyRate(t.annualRate), LevelPayment(t), t.months - 1) < t.principal
  {
    hide Round, Interest, DueDate, ValidDate, MonthlyRate, Annuity, LevelPayment;
    var p, r, m, last := t.principal, MonthlyRate(t.annualRate), LevelPayment(t), t.months - 1;
    RateNonNegative(t);
    PaymentCoversInterest(t);
    assert Amortise(t)[last] == InstallmentItem(t, last);
    if p - PaidBy(p, r, m, last) > 0 || Left(p, r, m, last) > 0 {
      Unclamped(p, r, m, last, last);
    }
  }

  /** k level payments repay at least k times what the first one does and at most k payments. */
  lemma {:induction false} PaidBounds(p: int, r: real, m: int, k: nat)
    requires p >= 0 && r >= 0.0 && m >= Interest(p, r)
    ensures k * (m - Interest(p, r)) <= PaidBy(p, r, m, k) <= k * m
  {
    hide Interest;
    if k > 0 {
      PaidBounds(p, r, m, k - 1);
      BalanceFallsFar(p, r, m, 0, k - 1);
      InterestMonotone(Left(p, r, m, k - 1), p, r);
      OneMore(k - 1, m);
      OneMore(k - 1, m - Interest(p, r));
    }
  }

  lemma OneMore(k: int, x: int)
    ensures (k + 1) * x == k * x + x
  {}

  /** So the last row repays what those payments leave. */
  lemma InstallmentLastRow(t: Terms)
    requires Generates(t) && t.plan == EqualInstallment
    ensures var first := Interest(t.principal, MonthlyRate(t.annualRate));
            t.principal - (t.months - 1) * LevelPayment(t)
            <= Amortise(t)[t.months - 1].principal
            <= t.principal - (t.months - 1) * (LevelPayment(t) - first)
  {
    RateNonNegative(t);
    PaymentCoversInterest(t);
    assert Amortise(t)[t.months - 1] == InstallmentItem(t, t.months - 1);
    hide Interest, MonthlyRate, LevelPayment, Amortise;
    PaidBounds(t.principal, MonthlyRate(t.annualRate), LevelPayment(t), t.months - 1);
  }

  /** In closed form: it closes if the payments before the last stay below the principal, and only if
      what they repay at the first month's pace does. Without interest the two bounds meet. */
  lemma InstallmentPace(t: Terms)
    requires Generates(t) && t.plan == EqualInstallment
    ensures (t.months - 1) * LevelPayment(t) < t.principal ==> Closes(Amortise(t))
    ensures Closes(Amortise(t)) ==>
              (t.months - 1) * (LevelPayment(t) - Interest(t.principal, MonthlyRate(t.annualRate))) < t.principal
  {
    hide Interest, MonthlyRate, LevelPayment, Round, DueDate, Annuity;
    InstallmentLastRow(t);
    assert Amortise(t)[t.months - 1] == InstallmentItem(t, t.months - 1);
  }

  lemma NoRateNoInterest(balance: int)
    ensures Interest(balance, 0.0) == 0
  {}

  /** Without interest, level and even plans close exactly when the rounded-up parts leave something
      for the last row. */
  lemma ZeroRateCloses(t: Terms)
    requires Generates(t) && t.annualRate == 0.0 && t.plan != InterestOnly && t.plan != Bullet
    ensures Closes(Amortise(t)) <==> (t.months - 1) * Round(t.principal as real / t.months as real) < t.principal
  {
    if t.plan == EqualInstallment {
      InstallmentPace(t);
      NoRateNoInterest(t.principal);
      hide Amortise, Closes, Interest;
    } else {
      hide Round, Interest, DueDate, ValidDate;
      assert Amortise(t)[t.months - 1] == ItemAt(t, t.months - 1);
      PaidStep(t, t.months - 1);
    }
  }

  /** g - 1 <= n r g for g = (1 + r)^n. */
  lemma {:induction false} GrowthBound(r: real, n: nat)
    requires r >= 0.0
    ensures Pow(1.0 + r, n) - 1.0 <= n as real * (r * Pow(1.0 + r, n))
  {
    if n > 0 {
      var before, now := Pow(1.0 + r, n - 1), Pow(1.0 + r, n);
      GrowthBound(r, n - 1);
      PowMonotone(1.0 + r, n - 1, n);
      PowAtLeastOne(1.0 + r, n - 1);
      MulLeft(r, before, now);
      MulLeft(n as real, r * before, r * now);
      assert now == before + r * before;
      assert n as real * (r * before) == (n - 1) as real * (r * before) + r * before;
    }
  }

  /** A level payment is at least the even part. */
  lemma LevelAtLeastEven(t: Terms)
    requires Generates(t)
    ensures LevelPayment(t) >= EvenPart(t)
  {
    var p, r, n := t.principal as real, MonthlyRate(t.annualRate), t.months;
    RateNonNegative(t);
    if r > 0.0 {
      GrowthBound(r, n);
      PowAtLeastOne(1.0 + r, n);
      GrownAtLeastShare(p, r, Pow(1.0 + r, n), n as real);
    }
    hide Round;
    RoundMonotone(p / n as real, Annuity(t.principal, r, n));
  }

  lemma GrownAtLeastShare(p: real, r: real, growth: real, n: real)
    requires p >= 0.0 && growth > 1.0 && n > 0.0 && growth - 1.0 <= n * (r * growth)
    ensures GrownPayment(p, r, growth) >= p / n
  {
    var share := p / n;
    assert share * n == p;
    MulLeft(share, growth - 1.0, n * (r * growth));
    assert share * (n * (r * growth)) == p * r * growth;
    DivMonotone(share * (growth - 1.0), p * r * growth, growth - 1.0);
    assert share * (growth - 1.0) / (growth - 1.0) == share;
  }

  /** One yuan over 150 months at 0.12% a year: no month earns a cent of interest, and 149 payments of at
      least one cent leave a last row of minus 49 cents or less. */
  lemma LastRowCanBeNegativeWithInterest()
    ensures var t := Terms(100, 0.12, 150, EqualInstallment, 15, Date(2024, 1, 1), Monthly);
            Generates(t) && Amortise(t)[149].principal <= -49 && !Closes(Amortise(t))
  {
    var t := Terms(100, 0.12, 150, EqualInstallment, 15, Date(2024, 1, 1), Monthly);
    LevelAtLeastEven(t);
    InstallmentLastRow(t);
    InstallmentPace(t);
    hide *;
    TwoThirdsRoundsUp();
    NotACent();
  }

  lemma NotACent()
    ensures Interest(100, MonthlyRate(0.12)) == 0
  {
    assert MonthlyRate(0.12) == 0.0001;
  }

  /** One yuan over 150 months at no interest: 149 payments of one cent leave a last row of minus 49 cents. */
  lemma LastRowCanBeNegative()
    ensures var t := Terms(100, 0.0, 150, EqualInstallment, 15, Date(2024, 1, 1), Monthly);
            Generates(t) && Amortise(t)[149].principal == -49
  {
    var t := Terms(100, 0.0, 150, EqualInstallment, 15, Date(2024, 1, 1), Monthly);
    InstallmentLastRow(t);
    NoRateNoInterest(100);
    hide Interest, Round, Amortise;
    TwoThirdsRoundsUp();
  }

  lemma TwoThirdsRoundsUp()
    ensures Round(100 as real / 150 as real) == 1
  {
  }

  /** The last even part differs from the others by at most half a cent per month. */
  lemma LastEvenPart(t: Terms)
    requires Generates(t) && (t.plan == EqualPrincipal || t.plan == EqualInterest)
    ensures Abs((Amortise(t)[t.months - 1].principal - EvenPart(t)) as real) <= t.months as real / 2.0
  {
    hide Round, DueDate, ValidDate;
    var n := t.months;
    assert Amortise(t)[n - 1] == EvenItem(t, n - 1);
    EvenPartNear(t);
    hide EvenPart;
    TimesError(n, EvenPart(t), t.principal as real);
  }

  lemma EvenPartNear(t: Terms)
    requires Generates(t)
    ensures Abs(EvenPart(t) as real - t.principal as real / t.months as real) <= 0.5
  {
    hide Round;
    RoundNear(t.principal as real / t.months as real);
  }

  lemma TimesError(n: int, part: int, p: real)
    requires n > 0 && Abs(part as real - p / n as real) <= 0.5
    ensures Abs((n * part) as real - p) <= n as real / 2.0
    ensures n * part == (n - 1) * part + part
  {
    var months, share := n as real, p / n as real;
    TimesRounded(n, part, share);
    TimesShare(months, p);
    assert months * share == p;
    hide Abs;
  }

  lemma TimesShare(n: real, p: real)
    requires n > 0.0
    ensures n * (p / n) == p
  {}

  /** Daily bullet interest is within half a cent per month of simple interest over the counted days. */
  lemma {:induction false} DailyBulletDrift(t: Terms, k: nat)
    requires Generates(t)
    ensures NearSimpleInterest(AccruedDaily(t, k), t.principal, DailyRate(t.annualRate, t.accrual),
                               TotalDays(t.start, k, t.day), k)
  {
    hide Round, DailyRate, PeriodDays, ValidDate, SimpleInterest, NearSimpleInterest;
    var rate := DailyRate(t.annualRate, t.accrual);
    if k == 0 {
      NoInterestYet(t.principal, rate);
    } else {
      DailyBulletDrift(t, k - 1);
      OneMoreTerm(AccruedDaily(t, k - 1), t.principal, rate, TotalDays(t.start, k - 1, t.day),
                  PeriodDays(t.start, k - 1, t.day), k - 1);
    }
  }

  /** An interest total within terms / 2 cents of principal x rate x days. */
  predicate NearSimpleInterest(total: int, principal: int, rate: real, days: int, terms: int) {
    Abs(total as real - Accrual(principal, rate, days)) <= terms as real / 2.0
  }

  lemma AccrualAdds(principal: int, rate: real, a: int, b: int)
    ensures Accrual(principal, rate, 0) == 0.0
    ensures Accrual(principal, rate, a + b) == Accrual(principal, rate, a) + Accrual(principal, rate, b)
  {
    var scale := principal as real * rate;
    assert scale * (a + b) as real == scale * a as real + scale * b as real;
  }

  lemma NoInterestYet(principal: int, rate: real)
    ensures NearSimpleInterest(0, principal, rate, 0, 0)
  {
    AccrualAdds(principal, rate, 0, 0);
  }

  lemma OneMoreTerm(total: int, principal: int, rate: real, before: int, days: int, terms: int)
    requires NearSimpleInterest(total, principal, rate, before, terms)
    ensures NearSimpleInterest(total + SimpleInterest(principal, rate, days), principal, rate, before + days, terms + 1)
  {
    hide Accrual, Round;
    AccrualAdds(principal, rate, before, days);
    RoundNear(Accrual(principal, rate, days));
  }

  /** In calendar terms: the whole term runs from the start date to the last due date. */
  lemma BulletInterestDrift(t: Terms)
    requires Generates(t) && t.plan == Bullet && t.accrual != Monthly && t.day <= 28
    ensures NearSimpleInterest(Amortise(t)[t.months - 1].interest, t.principal, DailyRate(t.annualRate, t.accrual),
                               DaysInPeriod(t.start, DueDate(t.start, t.months - 1, t.day)), t.months)
  {
    hide NearSimpleInterest, DailyRate, Round, SimpleInterest, DueDate, DaysInPeriod;
    DailyBulletDrift(t, t.months);
    DaysTelescope(t.start, t.months, t.day);
    assert Amortise(t)[t.months - 1] == BulletItem(t, t.months - 1);
  }
}
