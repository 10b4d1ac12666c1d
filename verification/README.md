# FamilyLedger: the arithmetic, the ledger, the limiter and the hub, proved

A Dafny model of the parts of the FamilyLedger server where being right is hard, and proofs of what those parts are
for. The model follows the Go code branch by branch; each imperative routine is a method or a class proved against a
specification function, and the theorems are about those functions.

Five components.

**The loan engine** (`Money`, `Calendar`, `Schedule`, `Amortization`, `FixedPlan`, `LoanTables`, `LoanLifecycle`,
`Charges`, `LoanRuns`, `LoanConditions`, `LoanIdentities`, `LoanShortening`, `LoanCalendar`, `LoanInterest`,
`LoanReplies`, `LoanShortfalls`, `LoanService`). Five amortization plans with per-month rounding to the cent, the
due-date calendar, the fixed-payment generator, and a stored loan changed by payments, prepayments and rate changes.
Main results:

- the rounded level plan never drifts from the exact annuity by more than 1 + (1+r) + ... cents
  (`Amortization.RoundingDrift`), and a stated size of payment keeps the clamp from firing and the last row positive
  (`Amortization.SizeConditionCloses`);
- every row of every plan charges interest on a stated balance - what the rows before leave owing, the whole
  principal, or the counted days of it - with totals within half a cent a row (`Charges.EvenPrincipalCharges`,
  `Charges.LevelCharges`, `Charges.WholePrincipalCharges`, `Charges.DailyCharges`, `Charges.EvenPrincipalTotal`,
  `Charges.FixedCharges`);
- a prepayment answers with the interest of the rows before and after, paid ones included, and installs exactly the
  loan's own plan on the rest; a rate change the new rate on the restart (`LoanReplies.PrepaymentFigures`,
  `LoanReplies.LowerPaymentInstalls`, `LoanReplies.ShorteningInstalls`, `LoanReplies.RateChangeInstalls`);
- the books of a loan balance throughout its life - numbering, paid rows, remaining principal and conservation of
  principal hold, and every row before the last leaves something to pay - if and only if its terms and requests meet
  conditions that can be checked on the terms, the book and the request before each call (`LoanRuns.RunExact`,
  `LoanConditions.MeasuredLife`), with closed forms that suffice (`LoanConditions.LevelSizes`,
  `LoanConditions.ShorteningPace`);
- the four identities alone, without positive balances, hold throughout exactly under weaker conditions: each row paid
  records what is left after it, a shortened level plan fits the cap, and a rate change restarts from a positive
  remaining principal (`LoanIdentities.IdentitiesLife`); payments of a new loan keep them always, except for a level
  plan whose payments before the last repay more than the principal (`LoanIdentities.PaymentsAgree`);
- at one rate and payment a smaller principal is never worse, month by month and in total
  (`FixedPlan.SmallerPrincipalDominates`, `LoanRuns.PrepayingMoreNeverCosts`);
- with a payment day from 2 to 28 month i stays due on the i-th payment date, whatever is prepaid or repriced
  (`LoanCalendar.LifeOnCalendar`).

Six things the code does that its callers may not expect, each with the exact condition and a concrete loan:

- a schedule can end in a principal part that is zero or negative: for every plan it does not if and only if the terms
  are sized (`LoanConditions.SizedCloses`; for level plans the tracked balance must not have been clamped before the
  last row, `Amortization.InstallmentClosesExactly`, with closed-form bounds in `Amortization.InstallmentPace`;
  `Amortization.LastRowCanBeNegative`, `Amortization.LastRowCanBeNegativeWithInterest`);
- a rate change forgets what was prepaid since the last payment (`LoanRuns.RateChangeNeedsNoPending`,
  `LoanShortfalls.RateChangeForgets`);
- the cap of 720 rows can cut a shortened schedule off (`FixedPlan.FixedClosesExactly`, `LoanShortfalls.CapCutsOff`);
- shortening a loan can lengthen it (`LoanShortening.ShortensExactly`, `LoanShortfalls.ShorteningLengthens`);
- a second shortening keeps a larger payment than the first exactly when the annuity over the shorter term reaches the
  next half cent, and never a smaller one if the term did not grow (`LoanShortening.PaymentGrowsExactly`,
  `LoanShortening.PaymentNeverFalls`, `LoanShortfalls.SecondShorteningPaysMore`);
- a prepayment forgets interest: the new schedule counts days from the first of the next due month, so an
  interest-only loan by actual days is charged payment day - 1 days for that period, and a bullet loan nothing for the
  months gone by (`LoanInterest.DaysDropped`, `LoanInterest.PrepaidInterestOnly`, `LoanInterest.PrepaidBullet`); days
  are lost except before the first payment of a loan first due in its starting month (`LoanInterest.DroppedOrAdded`,
  `LoanInterest.OneCentHalvesInterest`).

**The ledger and sync engine** (`MapSum`, `LedgerTables`, `Ledger`, `LedgerRuns`, `LedgerEffects`, `BatchDelete`,
`Push`, `SyncService`, `CreatePipeline`, `LedgerService`, `CategoryForest`, `PageToken`, `Paging`, `WalkLength`,
`Incremental`, `Listings`). Main results: each operation is accepted exactly under conditions on the request and the
rows, and then leaves the stated row, moves the stated balances and nothing else (`LedgerEffects.UpdateEffect`,
`LedgerEffects.EditEffect`, `LedgerEffects.PipelineEffect`, `LedgerEffects.MergeEffect`); over every admissible run of
sync operations, pipeline creates, deletes, batch deletes, updates and transfers, each account balance is its opening
balance plus the signed CNY amounts of its live transactions plus its net transfers (`LedgerRuns.BalancesAgree`), with
the exact condition under which a transaction update takes part (`Ledger.RpcUpdateExact`); pushing is at most once and
the tables are the replay of the log, which gains exactly the operations that apply at their turn (`Push.PushExactly`,
`Push.AtMostOnce`, `Push.RetryChangesNothing`); a pull delivers exactly the caller's or the family's news from other
clients (`Listings.PersonalPull`, `Listings.FamilyPull`); a cursor walk over a growing table is exact, over a changing
one converges if changed rows are stamped anew, and ends once the table rests (`Paging.WalkExact`,
`Incremental.SyncConverges`, `WalkLength.WalkEnds`), while the gRPC category merge, which stamps nothing, leaves
clients with old rows (`Incremental.UnstampedIsMissed`, `Incremental.MergeIsMissed`); merging categories keeps the
money always and the forest exactly when no child of the source lies on the target's path to the root
(`CategoryForest.MergeMoney`, `CategoryForest.MergeAcyclicExactly`), and a pushed category keeps the forest exactly
when it is not on its new parent's path (`CategoryForest.CreateAcyclicExactly`).

**The rate limiter** (`TokenBuckets`, `RateLimiters`, `Eviction`). A bucket lets a request pass if and only if no
window ending with it would exceed burst + rate x length (`TokenBuckets.ExactLimiter`). Evicting idle entries changes
no answer of any run of requests that take at most d if and only if, for each of the two buckets, burst is 0 or rps x
TTL >= burst + slack, where x = rps x d and the slack is x up to one token, 1 from there to the burst, and x - burst +
1 beyond (`Eviction.EvictionUnobservable`); so a configuration that is safe for requests served at an instant need not
be for requests that wait (`Eviction.WaitingShows`).

**The WebSocket hub** (`HubTable`, `HubProtocol`, `HubServer`). A state machine of interleaved small steps, with the
reservation counter and its transient overshoot; safety under every interleaving (`HubProtocol.HubSafety`); a
connection is refused exactly when the reservations outstanding at its arrival reach the limit
(`HubProtocol.RefusedExactly`), which can happen with no handshake in progress
(`HubProtocol.RefusedWithoutHandshakes`), and with a free slot and room for its user one that authenticates gets all
the way in (`HubProtocol.GoodHandshakeEnters`).

**Aggregations** (`Aggregates`). The category tree, the net-worth trend and the two budget roll-ups, with the exact
difference between the latter two (`Aggregates.RollUpsDiffer`).

Conventions: amounts are integers of cents, `float64` is an exact `real`, `math.Round` rounds half away from zero,
`int64(x)` truncates toward zero; times are days in the calendar, seconds in the limiter, nanoseconds in cursors.
Tables are maps or sequences of rows, a database transaction or savepoint is a snapshot that is restored, and a
permission check is a boolean given to the operation.

## Model

| member | source | states |
|---|---|---|
| Calendar.AdvanceMonths | server/internal/loan/service.go:1060-1087 | the loop-normalised due date is the payment day (cut to the month's end) of the month the offset and the start day select |
| Calendar.DueGap | server/internal/loan/service.go:1060-1091 | consecutive due dates lie 28 to 31 days apart, whatever the payment day |
| Calendar.DueDatesIncrease | server/internal/loan/service.go:1060-1091 | due dates strictly increase, by 28 to 31 days a month |
| Calendar.FirstPeriodEmpty | server/internal/loan/service.go:912-922 | the 30-day fallback needs a loan started on the last day of a month shorter than the payment day, and happens exactly then; never for days 1 to 28 |
| Calendar.FallbackUnreachable | server/internal/loan/service.go:912-922 | for payment days 1 to 28 every period has the true, positive number of days |
| Calendar.DaysTelescope | server/internal/loan/service.go:948-958 | day counts add up to the days from the start date to the last due date |
| Calendar.RegeneratedDueDate | server/internal/loan/prepayment.go:68-72 | a schedule restarted from the first of a due month keeps every later due date if and only if the payment day is not 1; with day 1 each moves one month on |
| Calendar.FirstDueIsNext | server/internal/loan/service.go:1060-1087 | the first due date is the first date after the start on the payment day |
| Calendar.DueMonthly | server/internal/loan/service.go:1060-1087 | payment i is due on that day i months on |
| Calendar.MonthInYear | server/internal/loan/service.go:1089-1091 | month starts follow the table of a common year, a day later after February in leap years |
| Calendar.LeapYears | server/internal/loan/service.go:1089-1091 | February of 2024 and 2000 has 29 days, of 2023 and 1900 28 |
| Money.RoundHalves | server/internal/loan/service.go:802-804 | rounding is symmetric and takes halves away from zero |
| Schedule.GenerateInstallments | server/internal/loan/service.go:832-880 | the level-plan loop yields, row by row, the specified recurrence of rounded interest, clamped balance and final row |
| Schedule.GenerateEqualPrincipal | server/internal/loan/service.go:882-902 | the even-principal loop yields the specified rows |
| Schedule.GenerateEqualInterest | server/internal/loan/service.go:983-1004 | the even-principal, fixed-interest loop yields the specified rows |
| Schedule.GenerateInterestOnly | server/internal/loan/service.go:904-940 | the interest-only loop yields the specified rows, by month or by counted days |
| Schedule.GenerateBullet | server/internal/loan/service.go:942-981 | the bullet loops yield the specified rows, by month or by counted days |
| Schedule.GenerateSchedule | server/internal/loan/service.go:822-1007 | all five plans compute the schedule function the theorems are about; empty for no months or no principal |
| Charges.EvenPrincipalCharges | server/internal/loan/service.go:882-902 | even principal: row i's interest is the rounded month's rate on the principal less the parts of the rows before |
| Charges.EvenPrincipalFalls | server/internal/loan/service.go:882-902 | so it never rises |
| Charges.EvenPrincipalTotal | server/internal/loan/service.go:882-902 | all of it is within n/2 cents of the month's rate on n principals less n(n-1)/2 parts |
| Charges.WholePrincipalCharges | server/internal/loan/service.go:983-1004 | equal interest, and interest first by months: every row charges the whole principal |
| Charges.WholePrincipalTotal | server/internal/loan/service.go:983-1004 | n times that, within n/2 cents of n exact months |
| Charges.DailyCharges | server/internal/loan/service.go:812-924 | interest first by days: principal x rate x counted days over a year of 360 or 365 |
| Charges.BulletCharges | server/internal/loan/service.go:942-981 | bullet: nothing before the last row, which charges the months of the term at once, or its days within n/2 cents |
| Charges.LevelCharges | server/internal/loan/service.go:842-878 | level payments: each row charges the balance the one before recorded, the last what the parts have left |
| Charges.FixedCharges | server/internal/loan/service.go:1011-1058 | fixed payment: interest on what is owed, the payment less it or one cent to the principal, the last row the rest |
| Charges.EvenAgainstFlat | server/internal/loan/service.go:882-1004 | 12000 yuan at 1% a month: 780 yuan of interest with even principal, 1440 with even interest |
| Amortization.Conserves | server/internal/loan/service.go:822-1007 | every plan: principal parts sum to the principal, payment = principal part + interest |
| Amortization.PaymentCoversInterest | server/internal/loan/service.go:833-847 | the rounded level payment covers the first month's rounded interest |
| Amortization.BalanceFalls | server/internal/loan/service.go:845-868 | once it does, the tracked balance never grows nor goes negative and principal parts never shrink |
| Amortization.InstallmentShape | server/internal/loan/service.go:845-878 | before the final row of a level plan: interest never rises, principal parts are non-negative and never fall, payments are equal |
| Amortization.Unclamped | server/internal/loan/service.go:865-868 | while anything is owed at a later row the clamp at zero has not fired earlier |
| Amortization.RepaysIffCloses | server/internal/loan/service.go:822-1007 | for every plan, the recorded balances repay the loan row by row exactly when the last row has a positive principal part and nothing remains |
| Amortization.ExactRecurrence | server/internal/loan/service.go:833-839 | the closed form the drift is measured against starts at P, ends at 0 and follows balance x (1+r) - payment |
| Amortization.DriftOfBalance | server/internal/loan/service.go:842-868 | the tracked balance, clamp included, is within the sum of (1+r)^j, j < i, of the exact balance after i payments |
| Amortization.RoundingDrift | server/internal/loan/service.go:832-880 | the same bound for every recorded, non-final remaining balance of a generated schedule |
| Amortization.SizeConditionCloses | server/internal/loan/service.go:849-868 | if payment/(1+r) exceeds the drift before the last row, the clamp never fires and the final principal part is positive |
| Amortization.InstallmentClosesExactly | server/internal/loan/service.go:845-868 | a level schedule closes if and only if the tracked balance is still positive at the last row, that is the clamp has not fired |
| Amortization.InstallmentLastRow | server/internal/loan/service.go:849-852 | its last principal part lies between the principal less n-1 payments and the principal less n-1 times the first month's part |
| Amortization.InstallmentPace | server/internal/loan/service.go:845-868 | closed-form bounds: (n-1)m < p suffices and (n-1)(m - first interest) < p is necessary |
| Amortization.LevelAtLeastEven | server/internal/loan/service.go:833-840 | a level payment is never below the rounded even part |
| Amortization.ZeroRateCloses | server/internal/loan/service.go:832-902 | without interest, level and even plans close if and only if (n-1) rounded parts stay below the principal |
| Amortization.LastRowCanBeNegative | server/internal/loan/service.go:850-852 | concrete terms (100 cents, 150 months, no interest) whose last principal part is -49 |
| Amortization.LastRowCanBeNegativeWithInterest | server/internal/loan/service.go:850-852 | the same at 0.12% a year: a last principal part of at most -49 |
| Amortization.LastEvenPart | server/internal/loan/service.go:883-893 | in even plans the last principal part is within n/2 cents of the others |
| Amortization.BulletInterestDrift | server/internal/loan/service.go:944-958 | daily bullet interest is within n/2 cents of principal x daily rate x days from start to the last due date |
| FixedPlan.GenerateWithFixedPayment | server/internal/loan/service.go:1011-1058 | the loop, with its one-cent fallback, last row and 720-row cap, computes the recursive plan |
| FixedPlan.FixedRecords | server/internal/loan/service.go:1021-1056 | every row records what is then owed, and a plan shorter than the cap ends at zero |
| FixedPlan.FixedRepaysIffCloses | server/internal/loan/service.go:1019-1057 | the plan repays its principal exactly when its last row does, which it does unless the cap cut it off |
| FixedPlan.PaceCloses | server/internal/loan/service.go:1019-1057 | it closes whenever the first month's pace clears the principal within the cap |
| FixedPlan.FixedLength | server/internal/loan/service.go:1021-1056 | the plan has at most n rows if and only if n months repay everything or reach the cap |
| FixedPlan.FixedRemaining | server/internal/loan/service.go:1046-1055 | each row records the balance after its month |
| FixedPlan.FixedClosesExactly | server/internal/loan/service.go:1019-1057 | the cap does not cut the plan off if and only if the months up to it repay everything |
| FixedPlan.PaceBounds | server/internal/loan/service.go:1021-1056 | n months suffice at the first month's pace, and only if they do at the full payment; without interest the two meet |
| FixedPlan.ZeroRateFixedCloses | server/internal/loan/service.go:1019-1057 | without interest, the plan closes if and only if the principal is at most the months to the cap times the payment |
| FixedPlan.SmallerPrincipalDominates | server/internal/loan/service.go:1011-1058 | same rate and payment: the smaller principal has pointwise smaller balances, no more months, no more interest |
| LoanService.FindNextUnpaidDueDate | server/internal/loan/prepayment.go:165-172 | the first unpaid row's due date, or the fallback |
| LoanService.CalcReduceMonths | server/internal/loan/prepayment.go:129-160 | the shortened schedule per plan; no result where the code panics |
| LoanService.CalcPrepaymentSchedule | server/internal/loan/prepayment.go:45-126 | schedule, counters and interest figures of a prepayment under both strategies |
| LoanService.LoanBook.constructor | server/internal/loan/service.go:35-113 | a created loan is numbered, and balances exactly when its schedule closes |
| LoanService.LoanBook.RecordPayment | server/internal/loan/service.go:643-716 | only the next unpaid month is paid, repeats are answered without effect, balanced books stay balanced |
| LoanService.LoanBook.ExecutePrepayment | server/internal/loan/prepayment.go:181-216 | loan row, deletion and renumbered insertion leave exactly the specified book; refused or panicking requests leave it unchanged |
| LoanService.LoanBook.RecordRateChange | server/internal/loan/service.go:558-619 | rate, deletion and insertion leave exactly the specified book; refused exactly for rates not above zero |
| LoanLifecycle.NumberedQueries | server/internal/loan/service.go:558-603 | over numbered rows the MIN, COUNT and DELETE statements mean next month, paid months and the paid prefix |
| LoanLifecycle.NewScheduleRepays | server/internal/loan/prepayment.go:74-95 | every schedule a prepayment installs repays the new principal exactly when its last row closes; shortened even plans always do |
| LoanLifecycle.CreatedBalanced | server/internal/loan/service.go:35-113 | creation balances exactly when the generated schedule closes |
| LoanLifecycle.PaymentIsNextRow | server/internal/loan/service.go:643-716 | which requests pay, which are repeats, and that all others change nothing |
| LoanLifecycle.PaymentKeeps | server/internal/loan/service.go:643-716 | paying keeps numbering and balance |
| LoanLifecycle.PrepaymentKeeps | server/internal/loan/prepayment.go:181-216 | a prepayment keeps the books balanced exactly when it repays everything or its schedule closes |
| LoanLifecycle.RateChangeKeeps | server/internal/loan/service.go:558-619 | a rate change does exactly when it restarts from remaining_principal and its schedule closes |
| LoanReplies.PrepaymentFigures | server/internal/loan/prepayment.go:45-126 | every plan and strategy: interest before and after is that of the rows before and after, paid ones included; saved is the difference, never below zero; months reduced and the payment shown are those of the rows installed; paid rows and other loan fields stay |
| LoanReplies.PaymentAnswers | server/internal/loan/service.go:643-716 | which of the five replies a payment gets, with which row or month, and the book it leaves |
| LoanReplies.LowerPaymentInstalls | server/internal/loan/prepayment.go:83-95 | the loan's own plan, rate and day on the rest over the months that remain, from the first of the next due month |
| LoanReplies.ShorteningInstalls | server/internal/loan/prepayment.go:129-160 | even loans: the fewest months at the original part; level loans: the kept payment; equal-interest loans: none, the code panics |
| LoanReplies.RateChangeInstalls | server/internal/loan/service.go:558-619 | the new rate is stored and charged on the last paid row's balance, or the principal, over the months that remain; nothing else changes |
| LoanReplies.FlatReply | server/internal/loan/prepayment.go:45-126 | an equal-interest loan prepaid after k payments: k months at the old interest and the rest at the new |
| LoanReplies.FlatLoanSaves | server/internal/loan/prepayment.go:45-126 | a concrete such reply: 1440 yuan before, 900 after, 540 saved |
| LoanRuns.StepExact | server/internal/loan/service.go:338-716 | one request keeps the books balanced, identities and positive balances, exactly when it meets its condition |
| LoanRuns.RunExact | server/internal/loan/service.go:338-716 | a run stays balanced at every point exactly when each of its requests meets its condition |
| LoanRuns.StepTracks | server/internal/loan/service.go:571-583 | the row a rate change restarts from exceeds remaining_principal by what was prepaid since the last payment |
| LoanRuns.RateChangeNeedsNoPending | server/internal/loan/service.go:571-583 | so a rate change keeps the books balanced exactly when nothing was prepaid since the last payment and its schedule closes |
| LoanRuns.PrepayingMoreNeverCosts | server/internal/loan/prepayment.go:129-142 | shortening a level loan: a larger prepayment never means more months or more interest |
| LoanCalendar.StepKeepsCalendar | server/internal/loan/prepayment.go:68-72 | for payment days 2 to 28 one step, on a book with a row to pay, leaves every row on its own due date |
| LoanCalendar.RunKeepsCalendar | server/internal/loan/service.go:338-716 | so does every run that keeps the books balanced |
| LoanCalendar.LifeOnCalendar | server/internal/loan/service.go:35-716 | over such a life month i is due on the i-th payment date after the start |
| LoanInterest.DaysDropped | server/internal/loan/prepayment.go:68-72 | for payment days 2 to 28 the regenerated first period has payment day - 1 days, later ones their own; what is dropped is the time from the start of the current period to the first of the due month |
| LoanInterest.DaysDroppedOnFirst | server/internal/loan/prepayment.go:68-72 | with payment day 1 the whole current period is dropped and every period is counted as the one after it |
| LoanInterest.DroppedOrAdded | server/internal/loan/prepayment.go:68-72 | that is at least a day, except before the first payment of a loan first due in its starting month, where the days before the start are added |
| LoanInterest.PaidUpReached | server/internal/loan/service.go:643-716 | paying months 1 to k of a new loan leaves its own schedule with k rows paid |
| LoanInterest.PrepaidInterestOnly | server/internal/loan/service.go:904-940 | an interest-only loan by actual days, prepaid after k payments: interest of the first new row on payment day - 1 days, of every later row on its own days |
| LoanInterest.PrepaidBullet | server/internal/loan/service.go:942-981 | a bullet loan prepaid after k rows: total interest falls from that of the whole term to that of the remaining months on the rest, by months exactly, by days within half a cent a month |
| LoanInterest.OneCentHalvesInterest | server/internal/loan/prepayment.go:45-126 | a year's bullet loan at one percent a month: prepaying one cent after six months halves the interest reported |
| LoanConditions.SizedCloses | server/internal/loan/service.go:822-1007 | for every plan the schedule closes if and only if a condition on the terms holds |
| LoanConditions.LevelSizes | server/internal/loan/service.go:832-880 | closed forms for the level plan: outgrowing the drift, or n-1 payments below the principal, suffice; n-1 first parts reaching it exclude it |
| LoanConditions.ShorteningPace | server/internal/loan/prepayment.go:133-142 | closed forms for shortening within the cap: the first month's pace suffices, the full payment is necessary |
| LoanConditions.MeasuredExactly | server/internal/loan/service.go:338-716 | while the books balance, a request keeps them so if and only if it is measured: a condition on the book, the request and what was prepaid since the last payment |
| LoanConditions.MeasuredLife | server/internal/loan/service.go:35-716 | the books balance at every point of a loan's life, positive balances before the last row included, if and only if its terms are sized and its requests measured; then rows are 1..total_months, paid rows first, and original principal = paid principal + prepayments + remaining |
| LoanIdentities.IdentitiesStep | server/internal/loan/service.go:338-716 | one request keeps numbering, completeness, remaining principal and conservation, whatever the balances before the last row, exactly when it meets its condition |
| LoanIdentities.IdentitiesLife | server/internal/loan/service.go:35-716 | these identities hold at every point of a new loan's life if and only if every request meets it |
| LoanIdentities.PaymentsTally | server/internal/loan/service.go:643-716 | the payments to come keep them if and only if every unpaid row records what is left after it |
| LoanIdentities.AmortiseTallies | server/internal/loan/service.go:822-1007 | a generated schedule records that in every row if and only if it is not a level plan whose payments before the last exceed the principal |
| LoanIdentities.FixedTallies | server/internal/loan/service.go:1019-1057 | a schedule with a fixed payment always does |
| LoanIdentities.PaymentsAgree | server/internal/loan/service.go:35-716 | so all payments of a new loan keep the identities if and only if its terms do not exceed the principal that way |
| LoanIdentities.UnsizedCanAgree | server/internal/loan/service.go:882-902 | a concrete loan whose last row repays nothing and whose identities hold through all payments |
| LoanShortening.ShortensExactly | server/internal/loan/prepayment.go:83-109 | REDUCE_MONTHS does not lengthen the loan if and only if the rest fits the months that remain, plan by plan; months_reduced hides a lengthening as zero |
| LoanShortening.LevelShortens | server/internal/loan/prepayment.go:133-142 | closed-form bounds of that condition for level loans |
| LoanShortening.PaymentNeverFalls | server/internal/loan/prepayment.go:133-142 | the payment is computed anew from total_months, so after a shortening the next one keeps a payment at least as large |
| LoanShortening.PaymentGrowsExactly | server/internal/loan/prepayment.go:133-142 | the next kept payment is larger exactly when the annuity over the new months reaches the half cent above the old one, smaller exactly when it falls short of the half cent below; a shorter term has the strictly larger annuity, a whole cent always shows, the two differences agree within a cent, and without interest the condition is on whole numbers |
| LoanShortfalls.RateChangeForgets | server/internal/loan/service.go:571-583 | any part prepayment of any interest-only or bullet loan followed by any rate change: books balanced before it, not after |
| LoanShortfalls.RateChangeForgetsHalf | server/internal/loan/service.go:571-583 | one concrete such loan |
| LoanShortfalls.CapCutsOffExactly | server/internal/loan/service.go:1019-1057 | shortening a new interest-free level loan keeps its books balanced if and only if the rest is at most 720 of its payments |
| LoanShortfalls.CapCutsOff | server/internal/loan/service.go:1019-1057 | 1000 yuan over 1000 months: 279 yuan are still owed after row 720 |
| LoanShortfalls.LengthensExactly | server/internal/loan/prepayment.go:83-109 | when shortening a new interest-free level loan leaves no more months than it had |
| LoanShortfalls.ShorteningLengthens | server/internal/loan/prepayment.go:83-109 | 149 cents over 100 months: prepaying one cent to shorten the loan makes it longer |
| LoanShortfalls.SecondShorteningPaysMore | server/internal/loan/prepayment.go:133-142 | after one shortening the payment kept by the next has doubled |
| MapSum.SumUpdate | server/internal/sync/service.go:369-372 | writing one row changes a table sum by that row alone |
| Ledger.RowWritten | server/internal/sync/service.go:348-377 | a balance change matched by a row change keeps every opening balance |
| Ledger.SyncCreateKeeps | server/internal/sync/service.go:348-377 | a sync create keeps the ledger invariant, repeats included |
| Ledger.SyncUpdateKeeps | server/internal/sync/service.go:500-571 | so does a sync update, with moves between accounts and changes of kind |
| Ledger.RemovedKeeps | server/internal/sync/service.go:616-638 | and a delete |
| Ledger.PipelineCreateKeeps | server/internal/transaction/pipeline_stages.go:101-145 | and a pipeline create, placeholder category included |
| Ledger.TransferKeeps | server/internal/account/service.go:437-472 | and a transfer, which also leaves the source non-negative and the two balances' sum unchanged |
| Ledger.AccountCreateKeeps | server/internal/sync/service.go:669-699 | a new account's opening balance is the one it was created with |
| Ledger.MergeKeeps | server/internal/sync/service.go:1165-1187 | a category merge moves no balance |
| Ledger.RpcUpdateExact | server/internal/transaction/service.go:434-466 | an update request keeps the invariant if and only if the row's amount_cny is the conversion of its amount or the request changes neither amount nor type in a way that reconverts it |
| Ledger.RpcUpdateCanUnbalance | server/internal/transaction/service.go:434-466 | a concrete foreign row and request that breaks it |
| LedgerEffects.ConvertedInCny | server/internal/transaction/service.go:329-333 | the CNY value of an amount: itself for CNY or a blank currency, else amount x rate without its fraction |
| LedgerEffects.EffectIsWeight | server/internal/transaction/service.go:436-466 | a live row counts its CNY amount for its own account, positive for income, negative for expense |
| LedgerEffects.CreateEffect | server/internal/sync/service.go:271-378 | when a pushed create is accepted, every field of the row, and the one balance it moves |
| LedgerEffects.UpdateEffect | server/internal/sync/service.go:380-574 | when a pushed update is accepted, overdraft included, every field of the row, and both balances |
| LedgerEffects.DeleteEffect | server/internal/sync/service.go:594-641 | the row is marked and its balance taken back, once and by its owner only |
| LedgerEffects.AccountEffects | server/internal/sync/service.go:669-699 | when a pushed account is accepted, and the account it adds |
| LedgerEffects.AccountEdits | server/internal/sync/service.go:701-797 | when edits and deletions are accepted, and which fields they change; balances stay |
| LedgerEffects.CategoryCreateEffect | server/internal/sync/service.go:1192-1227 | when a pushed category is accepted, and that only its parent is set |
| LedgerEffects.CategoryDeleteEffect | server/internal/sync/service.go:1305-1342 | exactly the category and its direct children are deleted; presets and dead ones are left alone |
| LedgerEffects.CategoryEditEffect | server/internal/sync/service.go:1229-1303 | when an edit is accepted; it changes none of these tables |
| LedgerEffects.ElsewhereEffect | server/internal/sync/service.go:224-237 | operations on other entities leave the ledger's tables alone |
| LedgerEffects.MergeEffect | server/internal/sync/service.go:1103-1190 | when a pushed merge is accepted, idle or refused, a dead target included, and what moves |
| LedgerEffects.RpcMergeEffect | server/internal/transaction/service.go:1854-1889 | what the gRPC merge moves: the caller's live transactions, the live children, the source |
| LedgerEffects.PipelineEffect | server/internal/transaction/pipeline_stages.go:23-178 | when a create is accepted, every field of the row, the placeholder category, and the one balance it moves |
| LedgerEffects.EditEffect | server/internal/transaction/service.go:246-466 | when an update is accepted, every field of the row, and the balance: unmoved while amount and type stay, else by the new signed CNY amount less the old |
| LedgerEffects.NewAmountMoves | server/internal/transaction/service.go:329-466 | naming an amount and changing amount or type moves the balance by exactly the change of the signed amount |
| LedgerEffects.RemoveEffect | server/internal/transaction/service.go:528-611 | when a deletion is accepted, and that it takes the row's amount back |
| LedgerEffects.BatchEffect | server/internal/transaction/service.go:728-865 | exactly the named rows are deleted, and each balance gives up what its sum of rows loses |
| LedgerEffects.TransferEffect | server/internal/account/service.go:363-476 | when a transfer is accepted, and that it moves exactly its amount and is recorded |
| LedgerEffects.StepTakesEffect | server/internal/transaction/service.go:246-611 | a step of a run is the operation's effect, or nothing if it is refused |
| LedgerEffects.DollarRow | server/internal/transaction/service.go:329-445 | a dollar expense of 100 at rate 7 updated to 200 counts 1400 and costs 700 more, by request and by push |
| LedgerRuns.StepKeeps | server/internal/transaction/service.go:246-865 | every admissible operation keeps every opening balance |
| LedgerRuns.AdmissibleExactly | server/internal/transaction/service.go:318-333 | an accepted operation keeps every opening balance only if it is admissible |
| LedgerRuns.BalancesAgree | server/internal/sync/service.go:216-661 | over every admissible run: balance = opening + signed live transactions + net transfers |
| BatchDelete.EachIsTogether | server/internal/transaction/service.go:762-839 | deleting one id at a time, with repeats and dead ids, equals deleting the distinct live ones together |
| BatchDelete.OrderIrrelevant | server/internal/transaction/service.go:762-839 | any order and multiplicity of the same ids gives the same tables |
| BatchDelete.TransactionStore.BatchDeleteTransactions | server/internal/transaction/service.go:728-865 | the batch with per-account totals refines single deletes; the count is the number of distinct live ids |
| BatchDelete.TransactionStore.TotalReverts | server/internal/transaction/service.go:822-830 | each account's total is what its deleted rows had booked |
| BatchDelete.TransactionStore.ApplyReverts | server/internal/transaction/service.go:831-839 | one UPDATE per account changes those balances and no others |
| Push.Accounted | server/internal/sync/service.go:113-182 | accepted + failed = pushed |
| Push.LogFaithful | server/internal/sync/service.go:145-181 | over any pushes the log only grows, keeps client ids unique, and the tables, accounts and categories included, are the replay of what it gained |
| Push.Turn | server/internal/sync/service.go:136-181 | at its turn an operation lands, is known, or fails, with exactly that effect on tables and log |
| Push.PushExactly | server/internal/sync/service.go:92-186 | the log gains exactly the operations that land, in order, the tables are their replay, and exactly the malformed, unrecordable or refused ones are named as failed |
| Push.PushMovesMoney | server/internal/sync/service.go:92-186 | a concrete batch of three, one of them a repeat, that takes 60 from an account |
| Push.AtMostOnce | server/internal/sync/service.go:147-161 | from any log with unique client ids, an operation with a client id takes effect at most once, and not again if it is in the log |
| Push.LandedIsRecorded | server/internal/sync/service.go:147-181 | an accepted operation with a client id is in the log |
| Push.RetryChangesNothing | server/internal/sync/service.go:156-161 | pushing a landed batch again, or any part of it, changes nothing and is accepted whole |
| SyncService.SyncStore.ApplyTransactionCreate | server/internal/sync/service.go:271-378 | the statement sequence ends as specified, or fails |
| SyncService.SyncStore.NewFields | server/internal/sync/service.go:405-498 | the payload is refused exactly for a malformed or unusable account, category or date; otherwise the fields it sets |
| SyncService.SyncStore.ApplyTransactionUpdate | server/internal/sync/service.go:380-574 | row and both balances end as specified, or the operation fails |
| SyncService.SyncStore.Rebook | server/internal/sync/service.go:522-571 | moves a booked amount, failing exactly on overdraft of the new account, after the old one was written |
| SyncService.SyncStore.ApplyTransactionDelete | server/internal/sync/service.go:594-641 | soft delete and reversal, no effect on a deleted row, failure for another user's |
| SyncService.SyncStore.ApplyCategoryMerge | server/internal/sync/service.go:1103-1190 | the three statements and the no-op cases end as specified |
| SyncService.SyncStore.ApplyAccount | server/internal/sync/service.go:669-797 | creating, editing and deleting accounts, with their refusals |
| SyncService.SyncStore.ApplyCategoryCreate | server/internal/sync/service.go:1192-1227 | the upsert resets the parent of a known category and adds an unknown one |
| SyncService.SyncStore.ApplyCategoryDelete | server/internal/sync/service.go:1305-1342 | deletes the category and its direct children; presets and dead ones are left alone |
| SyncService.SyncStore.PushOperation | server/internal/sync/service.go:136-181 | one turn of the loop with its savepoint: a failed operation leaves no trace, even half done |
| SyncService.SyncStore.PushOperations | server/internal/sync/service.go:92-186 | the whole push leaves exactly the specified server, and accounts for each operation |
| CreatePipeline.PipelineState.Run | server/internal/transaction/pipeline.go:74-95 | whatever the stages: committed at the end, unchanged on failure, no transaction left open |
| CreatePipeline.PipelineState.Execute | server/internal/transaction/pipeline_stages.go:23-178 | each stage's effect on the shared state |
| CreatePipeline.PipelineAllOrNothing | server/internal/transaction/pipeline_stages.go:23-178 | the seven stages write row, balance and log record together, or nothing |
| CreatePipeline.ChecksRan | server/internal/transaction/create_pipeline.go:40-185 | the checking stages pass exactly for valid, permitted requests on a live account with a resolved category |
| CreatePipeline.WritesRan | server/internal/transaction/pipeline_stages.go:101-178 | the writing stages pass exactly when the overdraft rule and the fresh id allow, and write exactly these rows |
| CreatePipeline.RecordReplays | server/internal/transaction/pipeline_stages.go:155-178 | the log record, applied by the sync engine to a replica, gives the same tables |
| LedgerService.LedgerStore.UpdatedFields | server/internal/transaction/service.go:306-422 | an update is refused exactly for a non-positive amount, an invalid type or date, or an unusable category; otherwise the fields it sets |
| LedgerService.LedgerStore.UpdateTransaction | server/internal/transaction/service.go:246-466 | row and balance end as specified, or nothing changes |
| LedgerService.LedgerStore.DeleteTransaction | server/internal/transaction/service.go:528-611 | soft delete and reversal, or nothing |
| LedgerService.LedgerStore.TransferBetween | server/internal/account/service.go:363-476 | debit, credit and transfer row together, or nothing |
| LedgerService.LedgerStore.MergeCategories | server/internal/transaction/service.go:1811-1889 | refused exactly for bad, equal, dead, foreign or differently typed categories; otherwise transactions, children, budgets and source end as specified |
| CategoryForest.MergeAcyclicExactly | server/internal/sync/service.go:1165-1187 | the parent relation stays acyclic if and only if no live child of the source is the target or one of its ancestors; the code does not check |
| CategoryForest.MergeIntoChild | server/internal/sync/service.go:1173-1179 | merging into a live child makes that child its own parent |
| CategoryForest.MergeCanCloseCycle | server/internal/sync/service.go:1103-1190 | a concrete acyclic forest and an accepted request that closes a cycle |
| CategoryForest.CreateAcyclicExactly | server/internal/sync/service.go:1192-1227 | a pushed category keeps the parent relation acyclic if and only if it is not its new parent or an ancestor of it; the code does not check |
| CategoryForest.CreateCanCloseCycle | server/internal/sync/service.go:1192-1227 | a concrete acyclic forest and an accepted create that closes a cycle |
| CategoryForest.MergeMoney | server/internal/sync/service.go:1103-1190 | the source ends empty, its spend moves to the target exactly, other spend and all balances stay, and repeating it is a no-op |
| CategoryForest.RpcMergeClears | server/internal/transaction/service.go:1854-1889 | the gRPC merge clears the source of live transactions exactly when they all were the caller's |
| CategoryForest.BudgetsMerged | server/internal/transaction/service.go:1871-1881 | remap then delete leaves no row on the source, no repeated pair, the target's amount where it had one, the source's otherwise |
| PageToken.TokenRoundTrip | server/internal/sync/service.go:830-844 | a cursor printed as nanoseconds and UUID text parses back to itself, for both separators |
| PageToken.MalformedStartsOver | server/internal/sync/service.go:830-844 | a token without its separator or with an unreadable part is ignored |
| PageToken.HexReads | server/internal/sync/service.go:840 | hexadecimal digits are read in either case, and nothing else is one |
| PageToken.NotANumber | server/internal/sync/service.go:836 | which texts are no number |
| Paging.BuildPage | server/internal/sync/service.go:918-971 | from the first size + 1 rows alone, the page, has_more and cursor of the whole result |
| Paging.PageIsPrefix | server/internal/sync/service.go:881-971 | a page is ordered, past its cursor, and complete up to the cursor it hands out |
| Paging.WalkExact | server/internal/sync/service.go:918-975 | however table and query condition change between pages: everything comes once, in order, from what some page saw, and what every page sees is delivered |
| Paging.BehindIsMissed | server/internal/sync/service.go:820-844 | a row no page saw before its token passed it is never delivered by that walk |
| Paging.PullExact | server/internal/sync/service.go:799-975 | PullChanges, personal or family: every operation there at the start and in scope throughout comes exactly once in (timestamp, id) order, any other at most once |
| Listings.PersonalPull | server/internal/sync/service.go:906-930 | a finished personal pull delivers a row there from the start if and only if it is the caller's, newer than asked for and not from the asking client, in (time, id) order |
| Listings.FamilyPull | server/internal/sync/service.go:879-905 | a family pull delivers only members' news, about the family's own accounts and transactions where it is about such, and all of it that holds throughout |
| Listings.PullPage | server/internal/sync/service.go:820-827 | 1 to 500 rows a page as asked for, 100 by default |
| Listings.OtherClientsOnly | server/internal/sync/service.go:906-930 | a concrete pull by one of two clients: it gets the other's operation only |
| WalkLength.StillWalk | server/internal/sync/service.go:918-975 | on a table that does not change n pages are enough if and only if they hold all rows past the cursor, which then come in the query's order |
| WalkLength.WalkEnds | server/internal/sync/service.go:918-975 | however table and query condition change on the first pages, a walk ends once they rest: as soon as the pages after could hold the whole result |
| Incremental.SyncConverges | server/internal/transaction/service.go:1195-1303 | if changes stamp rows later than all stamps, a finished walk leaves the client's copies equal to the final table's matching rows |
| Incremental.IncrementalConverges | server/internal/transaction/service.go:1195-1303 | the incremental listing with tombstones, of a user or a family, on one account or all: if every changed row is stamped anew the client's last copies are the server's rows at the final page |
| Incremental.UnstampedIsMissed | server/internal/transaction/service.go:1854-1857 | a row changed behind the token without a new updated_at: the walk ends with the old row at the client and the new one in the table |
| Incremental.MergeIsMissed | server/internal/transaction/service.go:1854-1857 | a concrete listing with a category merge between two pages |
| Listings.ListingExact | server/internal/transaction/service.go:1195-1303 | a finished listing delivers only the owner's rows on the accounts asked for, newer than asked for, deleted ones with tombstones only, in (time, id) order; and all that every page saw |
| Listings.ListingConverges | server/internal/transaction/service.go:1195-1303 | with tombstones and stamped changes the client ends with the server's row for everything asked for |
| Listings.ListPage | server/internal/transaction/service.go:1016-1019 | 1 to 100 rows a page as asked for, 20 otherwise |
| TokenBuckets.TokenBucket.Allow | server/pkg/middleware/ratelimit.go:80-94 | refills, caps and takes a token exactly when one is there |
| TokenBuckets.TokensInRange | server/pkg/middleware/ratelimit.go:70-94 | tokens stay within [0, burst] over every run |
| TokenBuckets.WindowBound | server/pkg/middleware/ratelimit.go:70-94 | at most burst + rps x (t - s) requests pass in any window [s, t] |
| TokenBuckets.ExactLimiter | server/pkg/middleware/ratelimit.go:70-94 | a request passes if and only if no window ending with it would exceed that bound |
| TokenBuckets.LimiterInFigures | server/pkg/middleware/ratelimit.go:70-94 | the same in figures, for a fresh bucket: requests in the window + 1 <= burst + rps x seconds |
| RateLimiters.SweepExact | server/pkg/middleware/ratelimit.go:132-139 | what stays is exactly what was seen no longer ago than the time to live |
| RateLimiters.BucketEntry.Check | server/pkg/middleware/ratelimit.go:183-195 | the auth bucket first, then the global one at its own clock reading, untouched when auth refuses |
| RateLimiters.RateLimiter.GetEntry | server/pkg/middleware/ratelimit.go:146-162 | finds or creates the address's entry and marks it seen; no other changes |
| RateLimiters.RateLimiter.Intercept | server/pkg/middleware/ratelimit.go:173-199 | one request, with its three clock readings, as specified on the whole table |
| RateLimiters.RateLimiter.Cleanup | server/pkg/middleware/ratelimit.go:132-139 | deletes exactly the entries idle for longer than the time to live |
| RateLimiters.HandleByLevels | server/pkg/middleware/ratelimit.go:183-195 | verdict and new levels depend on the table only through the two token levels at their clock readings |
| Eviction.EvictionUnseen | server/pkg/middleware/ratelimit.go:126-195 | if for both buckets burst is 0 or rps x TTL >= burst + slack, sweeping and never-sweeping limiters answer alike on every run of requests taking at most d |
| Eviction.EvictionSeen | server/pkg/middleware/ratelimit.go:126-195 | if that fails for either bucket, a run of such requests tells them apart |
| Eviction.EvictionUnobservable | server/pkg/middleware/ratelimit.go:126-195 | so with requests taking at most d eviction is unobservable if and only if it holds for both, for every configuration and every d |
| Eviction.WaitingRun | server/pkg/middleware/ratelimit.go:126-195 | either gate: drained at 0, a request found at s that waits d, a sweep at t; it shows whenever the gate is then still short |
| Eviction.WaitingShows | server/pkg/middleware/ratelimit.go:126-195 | with ten tokens at one a second, ten seconds to live suffice at an instant and not for waits of five seconds, for which eleven do |
| HubTable.JoinCapped | server/pkg/ws/hub.go:348-375 | registering keeps the cap and leaves no user without clients |
| HubTable.LeaveCapped | server/pkg/ws/hub.go:388-404 | so does unregistering |
| HubTable.JoinExact | server/pkg/ws/hub.go:348-375 | a user below the cap, or without one, is admitted and has the client too; at the cap nothing changes; other users never do |
| HubTable.LeaveExact | server/pkg/ws/hub.go:388-404 | leaving takes this client from this user, and the user with the last one |
| HubProtocol.StepSafe | server/pkg/ws/hub.go:196-404 | every enabled small step of any connection keeps the hub safe |
| HubProtocol.RunSafe | server/pkg/ws/hub.go:196-404 | so does every interleaving |
| HubProtocol.HubSafety | server/pkg/ws/hub.go:214-443 | at any point: handshakes within MaxPendingAuth despite the overshoot, the counter back to zero without them, users capped and never empty, and the clients a broadcast meets are exactly the user's open ones |
| HubProtocol.RefusedExactly | server/pkg/ws/hub.go:215-226 | in every interleaving a connection is refused if and only if the reservations outstanding at its arrival reach MaxPendingAuth, whatever happens before its check |
| HubProtocol.RefusedWithoutHandshakes | server/pkg/ws/hub.go:215-234 | a concrete run, limit 1, in which two connections are refused with no handshake in progress |
| HubProtocol.GoodHandshakeEnters | server/pkg/ws/hub.go:214-375 | from any safe hub with a free slot and room for the user, a connection that authenticates ends registered and open, its reservation given back, nobody else touched |
| HubProtocol.RegisteredBelowCap | server/pkg/ws/hub.go:348-375 | a verified connection is registered exactly below the cap, on both paths |
| HubProtocol.GoneFromTable | server/pkg/ws/hub.go:388-404 | a failed send or a disconnect closes the client and takes it from the table, once |
| HubServer.Hub.RegisterAtomic | server/pkg/ws/hub.go:348-375 | refuses exactly at the cap, otherwise files the client under its user |
| HubServer.Hub.Unregister | server/pkg/ws/hub.go:388-404 | removes the client once, drops an emptied user, and closes its channel once |
| HubServer.Hub.TotalConnections | server/pkg/ws/hub.go:414-422 | the sum over users counts every registered client once |
| HubServer.Hub.BroadcastToUser | server/pkg/ws/hub.go:430-443 | every client of the user gets the message if its buffer has room, nobody else is touched, no closed channel is met |
| Aggregates.CategoryBreakdown | server/internal/dashboard/service.go:578-642 | whatever the map order, each top-level amount is own spend plus children, each entry is listed once, and the amounts sum to the total |
| Aggregates.BreakdownAddsUp | server/internal/dashboard/service.go:578-642 | any such tree's amounts sum to the total of the rows |
| Aggregates.BreakdownRows | server/internal/dashboard/service.go:578-642 | the tree's entries are the categories without a parent and the parents, each with exactly its children's rows and its own amount plus theirs |
| Aggregates.NetOfIs | server/internal/dashboard/service.go:933-985 | a period's net is its own row's, or nothing |
| Aggregates.NetWorthTrend | server/internal/dashboard/service.go:933-985 | the last point is today's net worth and consecutive points differ by exactly the later period's net |
| Aggregates.DashboardSpend | server/internal/dashboard/service.go:807-836 | a budget line's spend is direct spend plus the rows that name it as parent |
| Aggregates.BudgetSpend | server/internal/budget/service.go:558-608 | the same line computed from live categories: children only for a category that is not itself a live child |
| Aggregates.RollUpsDiffer | server/internal/budget/service.go:581-608 | the two figures differ by exactly the spend on deleted children, and on all children of a live child |
| Aggregates.RollUpsAgreeExactly | server/internal/budget/service.go:581-608 | with no negative spend they agree if and only if there is no such spend |
| Aggregates.RollUpsAgree | server/internal/dashboard/service.go:807-836 | they always agree on a two-level forest without spend on deleted categories |

## Left out

- IEEE-754 rounding, overflow to infinity and NaN: every `float64` is an exact real.
- int64 overflow: amounts and counters are unbounded integers; the create pipeline's own limit on amounts is modelled.
- LoanService.CalcReduceMonths: where the original even part rounds to zero the code converts +Inf to an int, which Go leaves to the implementation; one month is modelled, the result on amd64.
- Loan start dates with a time of day or a zone: dates are UTC midnights, as the callers supply them.
- Loan payments as ledger transactions: the debit of the linked account and the expense row beside RecordPayment and ExecutePrepayment; loan books and account balances are separate here.
- UpdateLoan, DeleteLoan, loan groups, LPR rates, the rate-change history table and the repayment calendar: field updates and listings around the same schedules.
- Ledger.TransferKeeps: account ids are compared as canonical UUIDs; two spellings of one id, which the code's text comparison lets through, are a transfer to itself with no net effect.
- DeleteFamily and CSV import: the first removes transfer rows without reverting balances, the second is a loop over creates.
- Sync operations on loans, budgets, investments and assets, and the names, icons and order of categories and accounts: they write none of the modelled columns; the log treats them as accepted or refused.
- Foreign-key and check-constraint failures other than those the tables show: they appear as the operations' failure results.
- CreatePipeline.ChecksRan: the preset category a batch import falls back to is a parameter, not a query.
- PageToken.TokenRoundTrip: only the canonical text of a UUID, the one the server prints, is parsed; and the incremental listing's tolerance of a token with only one good half is not modelled.
- Incremental.IncrementalConverges: it holds while every change stamps its row. Two writes do not: the gRPC category merge, whose effect Incremental.MergeIsMissed shows, and the deletion of a family (server/internal/family/service.go:729). Nor does an account that moves in or out of a family stamp its transactions; a row that becomes visible behind the token is missed, as Paging.BehindIsMissed says.
- Paging.PullExact: log rows stamped before 1678 or after 2262, which a push stores as the client sent them, are excluded: Go leaves UnixNano undefined there, so their cursors need not come back.
- The default (non-incremental) transaction listing, totals and text search.
- RateLimiters.RateLimiter.Intercept: requests come one after another; in the code `allow` runs outside the lock, so two requests of one address may interleave.
- RateLimiters.BucketEntry.Check: the two buckets are values inside the entry, so aliasing between entries cannot arise.
- HubProtocol.HubSafety: network reads and writes, timeouts and token expiry are nondeterministic steps without content; the uncapped `register`, which no shown path calls, is left out.
- HubServer.Hub.RegisterAtomic: methods run whole, as under their lock; the interleavings are in HubProtocol.
- Aggregates.CategoryBreakdown: names, icons, weights and the final sort, a permutation of the listed entries.
- Aggregates.NetWorthTrend: labels are period numbers; today's net worth is a parameter.
- Permissions, authentication, notifications, audit logs, protobuf, SQL text, JSON and configuration: plumbing around the modelled behaviour.
- XIRR, exchange-rate refresh and market data: floating-point iteration and network clients.
