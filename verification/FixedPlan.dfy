/** Schedules with a fixed monthly payment, used when a prepayment shortens the loan
    (server/internal/loan/service.go, generateWithFixedPayment). */
module FixedPlan {
  import opened Money
  import opened Calendar
  import opened Schedule
  import opened Amortization

  const MONTH_CAP: nat := 720

  /** Principal repaid in a month that starts with `left` owed: at least one cent. */
  function MonthPart(left: int, r: real, pay: int): int {
    if pay - Interest(left, r) <= 0 then 1 else pay - Interest(left, r)
  }

  /** Rows from month i on. */
  function FixedFrom(left: int, r: real, pay: int, i: nat, day: int, start: Date): (items: seq<Item>)
    requires ValidDate(start) && day >= 1
    ensures left > 0 && i < MONTH_CAP ==> items != []
    decreases MONTH_CAP - i
  {
    if left <= 0 || i >= MONTH_CAP then []
    else
      var interest, part := Interest(left, r), MonthPart(left, r, pay);
      var due := DueDate(start, i, day);
      if part >= left then [Item(left + interest, left, interest, 0, due)]
      else [Item(pay, part, interest, left - part, due)] + FixedFrom(left - part, r, pay, i + 1, day, start)
  }

  lemma DueMonthAfterYearZero(start: Date, i: nat, day: int)
    requires ValidDate(start)
    ensures DueMonth(start, i, day) >= 12
  {}

  method GenerateWithFixedPayment(principal: int, annualRate: real, fixedPayment: int, paymentDay: int, startDate: Date)
    returns (items: seq<Item>)
    requires ValidDate(startDate) && paymentDay >= 1
    ensures items == FixedFrom(principal, MonthlyRate(annualRate), fixedPayment, 0, paymentDay, startDate)
  {
    hide Round, Interest, DueDate, DueMonth, ValidDate, MonthlyRate, FixedFrom;
    FixedRow(principal, MonthlyRate(annualRate), fixedPayment, 0, paymentDay, startDate);
    if principal <= 0 {
      return [];
    }
    var r := MonthlyRate(annualRate);
    var remaining := principal as real;
    var totalPrincipalPaid := 0;
    items := [];
    var i := 0;
    ghost var left := principal;
    while remaining > 0.5 && i < MONTH_CAP
      invariant 0 <= i <= MONTH_CAP
      invariant left == principal - totalPrincipalPaid && remaining == left as real
      invariant FixedFrom(principal, r, fixedPayment, 0, paymentDay, startDate)
                == items + FixedFrom(left, r, fixedPayment, i, paymentDay, startDate)
      decreases MONTH_CAP - i
    {
      DueMonthAfterYearZero(startDate, i, paymentDay);
      InterestIsRounded(left, remaining, r);
      FixedRow(left, r, fixedPayment, i, paymentDay, startDate);
      var due := AdvanceMonths(startDate, i, paymentDay);
      var interest := Round(remaining * r);
      var part := fixedPayment - interest;
      if part <= 0 {
        part := 1;
      }
      var remainingInt := principal - totalPrincipalPaid;
      if part >= remainingInt {
        part := remainingInt;
        interest := Interest(remainingInt, r);
        items := items + [Item(part + interest, part, interest, 0, due)];
        return;
      }
      remaining := remaining - part as real;
      totalPrincipalPaid := totalPrincipalPaid + part;
      left := left - part;
      RoundExact(left);
      items := items + [Item(fixedPayment, part, interest, Round(remaining), due)];
      i := i + 1;
    }
    FixedRow(left, r, fixedPayment, i, paymentDay, startDate);
  }

  /** How the plan starts. */
  lemma FixedRow(left: int, r: real, pay: int, i: nat, day: int, start: Date)
    requires ValidDate(start) && day >= 1
    ensures left <= 0 || i >= MONTH_CAP ==> FixedFrom(left, r, pay, i, day, start) == []
    ensures left > 0 && i < MONTH_CAP && MonthPart(left, r, pay) >= left ==>
              FixedFrom(left, r, pay, i, day, start)
              == [Item(left + Interest(left, r), left, Interest(left, r), 0, DueDate(start, i, day))]
    ensures left > 0 && i < MONTH_CAP && MonthPart(left, r, pay) < left ==>
              FixedFrom(left, r, pay, i, day, start)
              == [Item(pay, MonthPart(left, r, pay), Interest(left, r), left - MonthPart(left, r, pay),
                       DueDate(start, i, day))]
                 + FixedFrom(left - MonthPart(left, r, pay), r, pay, i + 1, day, start)
  {
    hide Interest, DueDate, ValidDate;
  }

  // ---------------------------------------------------------------- repayment

  lemma FirstRow(x: Item, rest: seq<Item>, k: nat)
    requires k <= |rest|
    ensures SumPrincipal([x]) == x.principal && SumInterest([x]) == x.interest
    ensures ([x] + rest)[..k + 1] == [x] + rest[..k]
    ensures SumPrincipal(([x] + rest)[..k + 1]) == x.principal + SumPrincipal(rest[..k])
  {
    assert [x] == [] + [x];
    assert [x][..0] == [];
    SumConcat([x], rest[..k]);
  }

  /** Each row records what is still owed after it, and only the last row can reach zero. */
  ghost predicate Records(items: seq<Item>, left: int) {
    && (forall k :: 0 <= k < |items| ==> items[k].remaining == left - SumPrincipal(items[..k + 1]))
    && (forall k :: 0 <= k < |items| - 1 ==> items[k].remaining > 0)
    && (items != [] ==> items[|items| - 1].principal > 0)
  }

  lemma RecordsGrow(x: Item, rest: seq<Item>, left: int)
    requires Records(rest, left - x.principal) && x.remaining == left - x.principal
    requires rest != [] ==> x.remaining > 0
    requires rest == [] ==> x.principal > 0
    ensures Records([x] + rest, left)
  {
    var items := [x] + rest;
    forall k | 0 <= k < |items|
      ensures items[k].remaining == left - SumPrincipal(items[..k + 1])
    {
      FirstRow(x, rest, k);
      if k > 0 {
        assert items[k] == rest[k - 1];
      }
    }
  }

  lemma {:induction false} FixedRecords(left: int, r: real, pay: int, i: nat, day: int, start: Date)
    requires ValidDate(start) && day >= 1 && left > 0 && i <= MONTH_CAP
    ensures var items := FixedFrom(left, r, pay, i, day, start);
            && Records(items, left)
            && (|items| < MONTH_CAP - i ==> items != [] && items[|items| - 1].remaining == 0)
    decreases MONTH_CAP - i
  {
    hide Interest, DueDate, ValidDate, Records, FixedFrom;
    FixedRow(left, r, pay, i, day, start);
    var items := FixedFrom(left, r, pay, i, day, start);
    var part := MonthPart(left, r, pay);
    NoRecords(left);
    if i < MONTH_CAP {
      if part >= left {
        NoRecords(0);
        RecordsGrow(items[0], [], left);
        assert [items[0]] + [] == items;
      } else {
        FixedRecords(left - part, r, pay, i + 1, day, start);
        RecordsGrow(items[0], FixedFrom(left - part, r, pay, i + 1, day, start), left);
      }
    }
  }

  lemma NoRecords(left: int)
    ensures Records([], left)
  {}

  /** The plan repays its principal exactly when its last row does, which it does unless the month cap cut it off. */
  lemma FixedRepaysIffCloses(principal: int, r: real, pay: int, day: int, start: Date)
    requires ValidDate(start) && day >= 1 && principal > 0
    ensures var items := FixedFrom(principal, r, pay, 0, day, start);
            && (Repays(items, principal) <==> Closes(items))
            && (|items| < MONTH_CAP ==> Closes(items))
  {
    FixedRecords(principal, r, pay, 0, day, start);
    var items := FixedFrom(principal, r, pay, 0, day, start);
    assert items[..|items|] == items;
  }

  /** Every month repays at least what the first one does, so a payment that clears the principal
      within the cap at that pace closes. */
  lemma {:induction false} PaceCloses(left: int, first: int, r: real, pay: int, i: nat, day: int, start: Date)
    requires ValidDate(start) && day >= 1 && r >= 0.0 && 0 < left <= first && i <= MONTH_CAP
    requires pay > Interest(first, r) && left <= (MONTH_CAP - i) * (pay - Interest(first, r))
    ensures Closes(FixedFrom(left, r, pay, i, day, start))
    decreases MONTH_CAP - i
  {
    hide Interest, DueDate, ValidDate;
    var pace, part := pay - Interest(first, r), MonthPart(left, r, pay);
    InterestMonotone(left, first, r);
    assert i < MONTH_CAP;
    assert (MONTH_CAP - i) * pace == (MONTH_CAP - (i + 1)) * pace + pace;
    if part < left {
      PaceCloses(left - part, first, r, pay, i + 1, day, start);
    }
  }

  // ---------------------------------------------------------------- how long it takes

  /** What is owed after k months, never less than nothing. */
  function FixedLeft(left: int, r: real, pay: int, k: nat): int {
    if k == 0 then left
    else
      var before := FixedLeft(left, r, pay, k - 1);
      AtLeastZero(before - MonthPart(before, r, pay))
  }

  function AtLeastZero(x: int): int {
    if x < 0 then 0 else x
  }

  /** A month repays at most this much. */
  function MostAMonth(pay: int): int {
    if pay <= 0 then 1 else pay
  }

  lemma NothingLeft(r: real, pay: int, k: nat)
    ensures FixedLeft(0, r, pay, k) == 0
  {}

  lemma {:induction false} FixedLeftFromNext(left: int, r: real, pay: int, k: nat)
    ensures FixedLeft(left, r, pay, k + 1) == FixedLeft(AtLeastZero(left - MonthPart(left, r, pay)), r, pay, k)
  {
    hide MonthPart;
    if k > 0 {
      FixedLeftFromNext(left, r, pay, k - 1);
    }
  }

  /** The plan has at most n rows exactly when n months repay everything, or reach the cap. */
  lemma {:induction false} FixedLength(left: int, r: real, pay: int, i: nat, day: int, start: Date, n: nat)
    requires ValidDate(start) && day >= 1 && left >= 0
    ensures |FixedFrom(left, r, pay, i, day, start)| <= n <==> i + n >= MONTH_CAP || FixedLeft(left, r, pay, n) == 0
    decreases n
  {
    hide Interest, DueDate, ValidDate, MonthPart, FixedFrom;
    FixedRow(left, r, pay, i, day, start);
    if n > 0 && left > 0 && i < MONTH_CAP {
      FixedLeftFromNext(left, r, pay, n - 1);
      NothingLeft(r, pay, n - 1);
      if MonthPart(left, r, pay) < left {
        FixedLength(left - MonthPart(left, r, pay), r, pay, i + 1, day, start, n - 1);
      }
    } else if left == 0 {
      NothingLeft(r, pay, n);
    }
  }

  /** Each row records what is owed after its month. */
  lemma {:induction false} FixedRemaining(left: int, r: real, pay: int, i: nat, day: int, start: Date, k: nat)
    requires ValidDate(start) && day >= 1 && left > 0 && k < |FixedFrom(left, r, pay, i, day, start)|
    ensures FixedFrom(left, r, pay, i, day, start)[k].remaining == FixedLeft(left, r, pay, k + 1)
    decreases k
  {
    hide Interest, DueDate, ValidDate, MonthPart, FixedFrom;
    FixedRow(left, r, pay, i, day, start);
    FixedLeftFromNext(left, r, pay, k);
    if MonthPart(left, r, pay) >= left {
      NothingLeft(r, pay, k);
    } else if k > 0 {
      FixedRemaining(left - MonthPart(left, r, pay), r, pay, i + 1, day, start, k - 1);
    }
  }

  /** The plan closes exactly when the months up to the cap repay everything. */
  lemma {:induction false} FixedClosesExactly(left: int, r: real, pay: int, i: nat, day: int, start: Date)
    requires ValidDate(start) && day >= 1 && left > 0 && i <= MONTH_CAP
    ensures Closes(FixedFrom(left, r, pay, i, day, start)) <==> FixedLeft(left, r, pay, MONTH_CAP - i) == 0
    decreases MONTH_CAP - i
  {
    hide Interest, DueDate, ValidDate, MonthPart, FixedFrom;
    FixedRow(left, r, pay, i, day, start);
    if i < MONTH_CAP {
      var part := MonthPart(left, r, pay);
      FixedLeftFromNext(left, r, pay, MONTH_CAP - i - 1);
      NothingLeft(r, pay, MONTH_CAP - i - 1);
      if part < left {
        FixedClosesExactly(left - part, r, pay, i + 1, day, start);
      }
    }
  }

  /** In closed form: n months are enough if they are at the first month's pace, and only if they are
      at the full payment. Without interest the two meet. */
  lemma PaceBounds(left: int, r: real, pay: int, n: nat)
    requires r >= 0.0 && left >= 0
    ensures pay > Interest(left, r) && left <= n * (pay - Interest(left, r)) ==> FixedLeft(left, r, pay, n) == 0
    ensures FixedLeft(left, r, pay, n) == 0 ==> left <= n * MostAMonth(pay)
    ensures r == 0.0 ==> (FixedLeft(left, r, pay, n) == 0 <==> left <= n * MostAMonth(pay))
  {
    hide Interest, FixedLeft;
    LeftBounds(left, r, pay, n);
    FreeLeft(left, pay, n);
  }

  lemma {:induction false} LeftBounds(left: int, r: real, pay: int, k: nat)
    requires r >= 0.0 && left >= 0
    ensures 0 <= FixedLeft(left, r, pay, k) <= left
    ensures pay > Interest(left, r) ==> FixedLeft(left, r, pay, k) <= AtLeastZero(left - k * (pay - Interest(left, r)))
    ensures FixedLeft(left, r, pay, k) >= left - k * MostAMonth(pay)
  {
    hide Interest;
    if k > 0 {
      var before := FixedLeft(left, r, pay, k - 1);
      LeftBounds(left, r, pay, k - 1);
      InterestMonotone(before, left, r);
      OneMore(k - 1, pay - Interest(left, r));
      OneMore(k - 1, MostAMonth(pay));
    }
  }

  /** Without interest every month repays the payment, or a cent if there is none. */
  lemma {:induction false} FreeLeft(left: int, pay: int, k: nat)
    requires left >= 0
    ensures FixedLeft(left, 0.0, pay, k) == AtLeastZero(left - k * MostAMonth(pay))
  {
    hide Interest;
    if k > 0 {
      FreeLeft(left, pay, k - 1);
      NoRateNoInterest(FixedLeft(left, 0.0, pay, k - 1));
      OneMore(k - 1, MostAMonth(pay));
    }
  }

  /** So its rows count down by the payment, and n rows are enough exactly when n payments are. */
  lemma FreeRows(left: int, pay: int, day: int, start: Date, n: nat)
    requires ValidDate(start) && day >= 1 && left > 0 && n <= MONTH_CAP
    ensures var items := FixedFrom(left, 0.0, pay, 0, day, start);
            && (|items| <= n <==> n == MONTH_CAP || left <= n * MostAMonth(pay))
            && (0 < n <= |items| ==> items[n - 1].remaining == AtLeastZero(left - n * MostAMonth(pay)))
  {
    hide FixedFrom, FixedLeft, ValidDate, MostAMonth;
    FixedLength(left, 0.0, pay, 0, day, start, n);
    FreeLeft(left, pay, n);
    if 0 < n <= |FixedFrom(left, 0.0, pay, 0, day, start)| {
      FixedRemaining(left, 0.0, pay, 0, day, start, n - 1);
    }
  }

  /** Without interest the cap cuts a plan off exactly when the months up to it, at the payment, fall short. */
  lemma ZeroRateFixedCloses(left: int, pay: int, i: nat, day: int, start: Date)
    requires ValidDate(start) && day >= 1 && left > 0 && i <= MONTH_CAP
    ensures Closes(FixedFrom(left, 0.0, pay, i, day, start)) <==> left <= (MONTH_CAP - i) * MostAMonth(pay)
  {
    hide FixedFrom, FixedLeft, Closes, ValidDate;
    FixedClosesExactly(left, 0.0, pay, i, day, start);
    PaceBounds(left, 0.0, pay, MONTH_CAP - i);
  }

  // ---------------------------------------------------------------- domination

  /** Starting with less, a month still ends with less, whether or not the payment covers the interest. */
  lemma MonthDominates(a: int, b: int, r: real, pay: int)
    requires r >= 0.0 && a <= b
    ensures a - MonthPart(a, r, pay) <= b - MonthPart(b, r, pay)
  {
    hide Interest;
    InterestMonotone(a, b, r);
  }

  /** No more months, no more total interest, and month by month no more interest and no larger balance. */
  ghost predicate NoWorse(small: seq<Item>, large: seq<Item>) {
    && |small| <= |large|
    && SumInterest(small) <= SumInterest(large)
    && forall k :: 0 <= k < |small| ==>
         small[k].remaining <= large[k].remaining && small[k].interest <= large[k].interest
  }

  lemma NoWorseThanNothing(large: seq<Item>)
    requires SumInterest(large) >= 0
    ensures NoWorse([], large)
  {}

  lemma NoWorseGrow(x: Item, small: seq<Item>, y: Item, large: seq<Item>)
    requires NoWorse(small, large) && x.remaining <= y.remaining && x.interest <= y.interest
    ensures NoWorse([x] + small, [y] + large)
  {
    SumConcat([x], small);
    SumConcat([y], large);
    FirstRow(x, small, 0);
    FirstRow(y, large, 0);
  }

  /** The plan as its first row and the rest. */
  lemma FixedSplit(left: int, r: real, pay: int, i: nat, day: int, start: Date)
    requires ValidDate(start) && day >= 1 && left > 0 && i < MONTH_CAP
    ensures var items := FixedFrom(left, r, pay, i, day, start);
            var after := if MonthPart(left, r, pay) >= left then 0 else left - MonthPart(left, r, pay);
            && items != [] && items[0].interest == Interest(left, r) && items[0].remaining == after
            && items == [items[0]] + FixedFrom(after, r, pay, i + 1, day, start)
  {
    hide Interest, DueDate, ValidDate;
  }

  /** At one rate and one payment, the smaller of two principals is no worse in any month or in total. */
  lemma {:induction false} SmallerPrincipalDominates(a: int, b: int, r: real, pay: int, i: nat, day: int, start: Date)
    requires ValidDate(start) && day >= 1 && r >= 0.0 && a <= b
    ensures NoWorse(FixedFrom(a, r, pay, i, day, start), FixedFrom(b, r, pay, i, day, start))
    decreases MONTH_CAP - i
  {
    hide Interest, DueDate, ValidDate, FixedFrom, NoWorse;
    if a <= 0 || i >= MONTH_CAP {
      FixedRow(a, r, pay, i, day, start);
      InterestNonNegative(b, r, pay, i, day, start);
      NoWorseThanNothing(FixedFrom(b, r, pay, i, day, start));
    } else {
      MonthDominates(a, b, r, pay);
      InterestMonotone(a, b, r);
      FixedSplit(a, r, pay, i, day, start);
      FixedSplit(b, r, pay, i, day, start);
      var small, large := FixedFrom(a, r, pay, i, day, start), FixedFrom(b, r, pay, i, day, start);
      var after, later := small[0].remaining, large[0].remaining;
      SmallerPrincipalDominates(after, later, r, pay, i + 1, day, start);
      NoWorseGrow(small[0], FixedFrom(after, r, pay, i + 1, day, start),
                  large[0], FixedFrom(later, r, pay, i + 1, day, start));
    }
  }

  lemma {:induction false} InterestNonNegative(left: int, r: real, pay: int, i: nat, day: int, start: Date)
    requires ValidDate(start) && day >= 1 && r >= 0.0
    ensures SumInterest(FixedFrom(left, r, pay, i, day, start)) >= 0
    decreases MONTH_CAP - i
  {
    hide Interest, DueDate, ValidDate;
    if left > 0 && i < MONTH_CAP {
      InterestMonotone(0, left, r);
      var items, part := FixedFrom(left, r, pay, i, day, start), MonthPart(left, r, pay);
      FirstRow(items[0], [], 0);
      if part < left {
        InterestNonNegative(left - part, r, pay, i + 1, day, start);
        SumConcat([items[0]], FixedFrom(left - part, r, pay, i + 1, day, start));
      }
    }
  }
}
