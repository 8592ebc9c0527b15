# Money-market fund projection, modelled in Dafny

`mmf_analyzer.py` compares money-market funds by projecting how an initial
deposit plus monthly contributions grows in each of them. The projection runs
one calendar month at a time. Each month the contribution is added (from the
second month on). Interest then accrues day by day over the actual number of
days in the month, net of withholding tax. Finally the monthly management fee is
charged on the average of the opening and pre-fee balances, rounded half-up to
the cent. Funds whose projection fails are skipped with a warning. The others
are ranked by final balance, highest first.

This project models that engine:

| file | module | source |
|---|---|---|
| `outcomes.dfy` | `Outcomes` | `Option` / `Result` used for every failure path |
| `calendar.dfy` | `Calendar` | `add_months`, `get_month_days`, `date + timedelta` on Python's date range 0001-01-01 .. 9999-12-31 |
| `inputs.dfy` | `Inputs` | the `Fund` record and its checks, the run parameters, `validate_parameters` |
| `accrual.dfy` | `Accrual` | `calculate_daily_interest`, `calculate_management_fee` |
| `settlement.dfy` | `Settlement` | `calculate_monthly_returns`: the function `SettlePeriod` and the loop `CalculateMonthlyReturns` proved equal to it |
| `projection.dfy` | `Projection` | `calculate_returns`: the functions `Run` / `Project` and the loop `CalculateReturns` proved equal to them |
| `ranking.dfy` | `Ranking` | the computation of `print_results`: its end date, then the per-fund loop (skip failures, fail on no result, stable sort by final balance) |

Conventions of the model:
- Money and percentages are `Decimal` in the source. Here they are exact `real`s.
- The only rounding the source asks for is the fee's quantisation to 0.01 with `ROUND_HALF_UP`. It is modelled as whole cents, with ties rounded away from zero.
- Dates are `Calendar.Date` values, valid on the range Python's `datetime.date` accepts.
- The month loop's `add_months(current_date, 1)` is written as `Calendar.NextMonth`, which avoids the division by 12; `Calendar.NextMonthIsAddMonths` proves it equal to `AddMonths(d, 1)`, and `CalculateReturns` calls `AddMonths` itself.
- With exact arithmetic, a projection can fail in only two ways:
  - a day of the daily trace passes 9999-12-31 (`OverflowError`), or
  - `add_months` reaches year 10000 (`ValueError`).
- The model returns these two failures as `Err` values. `Projection.FailureIndependentOfFund` proves that they depend on the calendar alone. This is a fact of the exact-arithmetic model; the program can also fail for a single fund (see "## Left out").
- `print_results` computes the end date `add_months(start, int(investment_period))` (mmf_analyzer.py:341) before it projects any fund. `Projection.EndDateGuardsProjection` proves that, for a period of zero or more months, this step fails for exactly the parameters whose projections fail. For a negative period the month loop is empty and every projection succeeds, while the end date may still fail (a start in year 1). So in `print_results` the calendar failures raise there, before the per-fund loop, and no fund is warned about for them; `Ranking.Compare` models this. The per-fund warnings for calendar failures that `Ranking.RankFunds` produces arise only when `calculate_returns` is called directly.
- A month step that clamps the day (31 January to 28 February) makes the next month start before the day after the last accrued day. Those days are then accrued again, and the days between the first of the start month and the start date are never accrued. `Calendar.NextPeriodStart` states this overlap; `Projection.RunDays` states only the number of entries.
- Funds whose minimum investment exceeds the capital are not removed from the comparison. `validate_parameters` only warns about them (mmf_analyzer.py:127-134), and the ranking loop projects every fund (mmf_analyzer.py:363-366). The model follows the code: `Ranking.BelowMinimumStillRanked` states this.

## Model

| member | source | states |
|---|---|---|
| Calendar.DaysInMonth | mmf_analyzer.py:144-146 | February has 29 days in Gregorian leap years and 28 otherwise; April, June, September and November have 30; the other seven months have 31 |
| Calendar.MonthDays | mmf_analyzer.py:144-146 | the length of a date's month, 28 to 31, never shorter than the date's day |
| Calendar.AddMonths | mmf_analyzer.py:136-142 | succeeds exactly when the target month lies in years 1..9999; the result is valid and exactly `months` calendar months later; its day is the original day when the target month has it, and otherwise the last day of the target month |
| Calendar.EndOfJanuary | mmf_analyzer.py:136-142 | Jan 31 + 1 month is Feb 28/29; adding one month twice gives Mar 28/29, while adding two months at once gives Mar 31 |
| Calendar.NextMonth | mmf_analyzer.py:136-142 | the single-month step fails exactly from December 9999; otherwise it lands on a valid date exactly one calendar month later, never on a later day of the month |
| Calendar.NextMonthIsAddMonths | mmf_analyzer.py:250 | the loop's single-month step is `add_months(d, 1)` |
| Calendar.AddMonthsCompose | mmf_analyzer.py:136-142 | two month steps equal one combined step whenever the first step did not clamp the day |
| Calendar.OrdinalRange | mmf_analyzer.py:201 | every valid date has a day number in 1..3652059, and only 9999-12-31 has the largest |
| Calendar.NextDay | mmf_analyzer.py:201 | the following day exists for every date but 9999-12-31 and is valid |
| Calendar.NextDayOrdinal | mmf_analyzer.py:201 | the following day is the date whose day number is one more |
| Calendar.AddDays | mmf_analyzer.py:201 | `date + timedelta(days=k)` is valid whenever it exists |
| Calendar.AddDaysOrdinal | mmf_analyzer.py:201 | adding k days succeeds exactly when the day number stays within 9999-12-31, and then advances the day number by exactly k |
| Calendar.MonthEndInRange | mmf_analyzer.py:193-201 | from any date before December 9999, a whole month of daily entries stays within 9999-12-31 |
| Calendar.NextPeriodStart | mmf_analyzer.py:250 | the next month's start lies one day after the current month's last daily entry, or earlier by the days the clamp removed |
| Inputs.NewFundAsWritten | mmf_analyzer.py:27-44 | the fund checks as written: accepted exactly when the name is non-empty, the rate positive, and the fee and minimum positive (zero refused); the first failing check names the error |
| Inputs.ZeroFeeRefused | mmf_analyzer.py:33-38 | a fund whose only unusual field is a zero fee is well formed, yet the checks as written refuse it |
| Inputs.ZeroMinimumRefused | mmf_analyzer.py:39-44 | a fund with a zero minimum investment is well formed, yet the checks as written refuse it |
| Inputs.NewFund | mmf_analyzer.py:27-44 | the corrected checks: accepted exactly when the record is well formed (zero fee and zero minimum allowed), with the same error order |
| Inputs.Excluded | mmf_analyzer.py:128-130 | exactly the listed funds whose minimum exceeds the capital |
| Inputs.Available | mmf_analyzer.py:114-116 | exactly the listed funds whose minimum the capital meets |
| Inputs.LowestMinimum | mmf_analyzer.py:120 | a minimum of one of the funds, and no fund has a smaller one |
| Inputs.FirstWithMinimum | mmf_analyzer.py:124 | the first fund, in list order, with the given minimum |
| Inputs.ValidateParameters | mmf_analyzer.py:100-134 | each range error exactly under its condition and in check order; otherwise success exactly when some fund is affordable, returning the funds only warned about; else the lowest minimum and the first fund holding it |
| Accrual.DailyRate | mmf_analyzer.py:177 | the daily rate times 36500 is the annual percentage rate; positive for a positive rate |
| Accrual.DailyInterestBounds | mmf_analyzer.py:152-157 | after-tax interest plus the tax share is the gross interest; no tax leaves it whole; a 100% tax makes it 0; it lies between 0 and the gross interest for non-negative inputs; it is positive below a 100% tax |
| Accrual.DailyInterestMonotone | mmf_analyzer.py:152-157 | daily interest grows with balance and rate and falls as the tax rises |
| Accrual.RoundHalfUpCentsNearest | mmf_analyzer.py:165 | the nearest whole number of cents, within half a cent; a tie goes away from zero |
| Accrual.ManagementFeeRounding | mmf_analyzer.py:159-165 | the fee is a whole number of cents within 0.005 of the exact fee on the average balance; a half-cent tie is rounded away from zero, so upwards for a positive exact fee; it is not negative when the exact fee is not |
| Accrual.FeeNonNegative | mmf_analyzer.py:163-164 | the exact fee on a non-negative average balance at a non-negative rate is not negative |
| Settlement.Accrue | mmf_analyzer.py:194-205 | a daily entry carries its date, and its balance is the previous balance plus its interest |
| Settlement.CalculateMonthlyReturns | mmf_analyzer.py:167-220 | the day loop with its running balance, interest sum and trace returns exactly the settlement `SettlePeriod` describes, including the failure |
| Settlement.TraceDates | mmf_analyzer.py:193-205 | the trace has one entry per day, and entry i is dated i days after the start |
| Settlement.TraceBalance | mmf_analyzer.py:189-198 | the running balance after the trace is the accrual start plus the summed interest |
| Settlement.TraceAccrues | mmf_analyzer.py:194-197 | each entry's interest is the daily interest on the balance before it, and its balance adds that interest |
| Settlement.TraceDefined | mmf_analyzer.py:193-201 | a trace of n days exists exactly when its last date is representable |
| Settlement.TraceNonDecreasing | mmf_analyzer.py:193-198 | from a non-negative start, with tax at most 100%, no day earns negative interest and the balance never decreases |
| Settlement.SettlementDays | mmf_analyzer.py:176-205 | a settled month has one daily entry per day of its month, entry i dated i days after the start date |
| Settlement.SettlementBalance | mmf_analyzer.py:184-219 | a settled month's interest is the trace's sum; its closing balance is opening + contribution (from month 1) + interest − fee; the fee is the rounded fee on opening and pre-fee balance when fees are on, else 0 |
| Settlement.SettlementFails | mmf_analyzer.py:193-201 | a month fails exactly when its last day lies past 9999-12-31, whatever the fund or balance, and then with the date-overflow error |
| Settlement.SettlementNonDecreasing | mmf_analyzer.py:184-205 | for a well-formed fund, parameters in range and a non-negative balance, the interest is not negative and the daily balances never decrease from the accrual start |
| Settlement.SettlementFeeNonNegative | mmf_analyzer.py:207-213 | under the same conditions the month's fee is not negative |
| Settlement.PeriodFeeNonNegative | mmf_analyzer.py:207-213 | the fee charged in a month, zero when fees are excluded, is not negative for non-negative balances and fee rate |
| Projection.IntPeriod | mmf_analyzer.py:341 | `int()` of the period truncates toward zero: the whole number at or below a non-negative period, at or above a negative one |
| Projection.MonthCount | mmf_analyzer.py:236 | the number of iterations of `range(int(period))`: zero exactly below one month, otherwise the whole months in the period |
| Projection.MonthCountIsRange | mmf_analyzer.py:236 | the month count is `int(period)` when that is positive and zero otherwise |
| Projection.Step | mmf_analyzer.py:237-254 | a successful month moves the date to a valid date one calendar month later |
| Projection.Run | mmf_analyzer.py:236-254 | after n successful months the date is valid and n calendar months after the start |
| Projection.NetReturnInverse | mmf_analyzer.py:257-261 | the net return gives back the final balance from the contribution; it is 0 without contribution; on a positive contribution it is non-negative exactly when nothing was lost |
| Projection.CalculateReturns | mmf_analyzer.py:222-276 | the month loop, with its totals, dates, records and failure tagged with the fund's name, returns exactly `Project` |
| Projection.RunRecords | mmf_analyzer.py:231-251 | after n months there are n + 1 monthly records: first the initial capital at the start month, last the current balance at the current month |
| Projection.RunContribution | mmf_analyzer.py:246-247 | the contribution total is the initial capital plus each month's contribution |
| Projection.ContributionSumClosed | mmf_analyzer.py:246-247 | n months contribute the monthly amount n − 1 times |
| Projection.RunTotals | mmf_analyzer.py:242-254 | balance = contributions + interest − fees; total interest = interest summed over the daily details; no fees when fees are off |
| Projection.RunDays | mmf_analyzer.py:250-254 | the daily details hold as many entries as there are days from the first of the start month to the first of the current month |
| Projection.ProjectionTotals | mmf_analyzer.py:225-270 | a successful projection has `investment_period + 1` monthly records, from the initial capital to the final balance; final balance = contribution + interest − fees; the interest is the daily details' sum; no fees when fees are off; the net return is that of the final balance |
| Projection.ProjectionContribution | mmf_analyzer.py:228-247 | the total contribution is the initial capital plus one monthly contribution per month after the first |
| Projection.StepFollowsSchedule | mmf_analyzer.py:237-250 | one month fails exactly when the next scheduled start does, with the same cause, and otherwise ends on that start |
| Projection.RunFollowsSchedule | mmf_analyzer.py:234-250 | the loop fails exactly where the fund-independent calendar schedule does, with the same cause, and otherwise sits on the scheduled date |
| Projection.NextStartFails | mmf_analyzer.py:237-250 | one month of the loop fails exactly when it starts in December 9999, and otherwise the next start is one calendar month later |
| Projection.ScheduleFails | mmf_analyzer.py:234-250 | the loop's dates fail exactly once they would pass December 9999, and otherwise lie `n` calendar months after the start |
| Projection.EndDateGuardsProjection | mmf_analyzer.py:341 | for `int(period) >= 0`, the end date `add_months(start, int(period))` is out of range exactly when the projection of any fund fails; for a negative `int(period)` every projection succeeds |
| Projection.FailureIndependentOfFund | mmf_analyzer.py:273-276 | in the exact-arithmetic model, whether a projection fails, and why, is the same for every fund; a failure carries the fund's name |
| Ranking.Insert | mmf_analyzer.py:375 | insertion adds exactly one entry to the multiset |
| Ranking.InsertSorted | mmf_analyzer.py:375 | insertion keeps the order highest-first |
| Ranking.SortDesc | mmf_analyzer.py:375 | the sorted results are ordered by final balance, highest first, and are a permutation of the input |
| Ranking.SortDescStable | mmf_analyzer.py:375 | funds with equal final balances keep their input order |
| Ranking.RankFunds | mmf_analyzer.py:361-375 | the per-fund loop returns a warning for every failed fund in order; it fails with "no valid results" exactly when no fund succeeded, and otherwise returns the successes sorted |
| Ranking.Compare | mmf_analyzer.py:340-375 | the end date `add_months(start, int(period))` is computed first and fails exactly when it is out of range, for any period; then no fund is warned about, the comparison fails only for an empty fund list, and otherwise it ranks every fund |
| Ranking.SuccessesMembers | mmf_analyzer.py:363-370 | a fund is among the results exactly when its projection succeeded, and with that projection; every warning is a listed fund's failure; results plus warnings account for every fund |
| Ranking.AllOrNothing | mmf_analyzer.py:363-373 | in the exact-arithmetic model, either every fund is ranked and nothing is warned about, or no fund is ranked and every fund is warned about |
| Ranking.BelowMinimumStillRanked | mmf_analyzer.py:363-366 | a fund whose minimum investment exceeds the capital is still ranked when its projection succeeds |
| Ranking.BestFirst | mmf_analyzer.py:375 | the first ranked fund has the highest final balance |

## Left out

- Per-fund `Decimal` failures: `quantize` (mmf_analyzer.py:165) raises `InvalidOperation` when the rounded fee needs more than 28 digits, and a rate of `Infinity` read from JSON (mmf_analyzer.py:69) passes the check at mmf_analyzer.py:31, then fails at that `quantize` when fees are on, or at Infinity × 0 under a 100% tax. These failures can hit one fund while others succeed, which the skip at mmf_analyzer.py:367-370 handles. The model's reals are finite and unbounded, so these paths are not modelled, and `Ranking.AllOrNothing` and `Projection.FailureIndependentOfFund` hold for the model only.
- Ranking.AllOrNothing: holds for the exact-arithmetic model only, not for the program, whose `Decimal` failures above can hit one fund alone.
- Projection.FailureIndependentOfFund: the same restriction; a fund-specific `Decimal` failure is not modelled.
- Non-finite float parameters: an `inf` or `nan` period passes the checks of `get_user_input` and `validate_parameters` (`inf < 1` and `nan <= 0` are false) and then makes `int()` raise at mmf_analyzer.py:341. The model's parameters are finite reals, so this path is not modelled.
- Ranking.RankFunds, Ranking.AllOrNothing: in `print_results` the end date at mmf_analyzer.py:341 raises first, for every input whose projections fail in the model (`Projection.EndDateGuardsProjection`). So the warned-about calendar failures of these two members arise only when `calculate_returns` is called directly; `Ranking.Compare` is the path through `print_results`.
- Decimal precision: `Decimal` works in a 28-significant-digit context, so `/ 365 / 100` and the products round. The model computes exactly; only the fee's rounding to cents is modelled.
- `float(...)` conversions of the results (mmf_analyzer.py:264-270): the results stay exact. The sort therefore compares exact final balances, not their float images.
- `Accrual.DailyInterest` and `Accrual.ManagementFee` carry no contract of their own. Their properties are the lemmas `DailyInterestBounds`, `DailyInterestMonotone` and `ManagementFeeRounding`. This keeps the nonlinear terms out of every proof that only needs to carry these values along.
- `Projection.NetReturn`: its properties are in `Projection.NetReturnInverse` for the same reason.
- `_load_funds` and `_get_default_funds` (JSON file input, fallback data): the fund list is a parameter.
- `get_user_input`: interactive prompts, float parsing and the input limits of that dialog. `date.today()` becomes the `startDate` parameter.
- `Decimal(str(x))` conversions of the float parameters are taken to be exact.
- The `isinstance` checks of `Fund.__post_init__`: the model's types make them hold.
- Exceptions and their messages are modelled as tagged `Err` values: `FundError`, `ParamError`, `CalcError`, `CalcFailure` and `RankError`.
- The warnings printed by `validate_parameters` become its success value, the list of funds warned about.
- `get_month_name`'s text ("%B %Y") is modelled as the pair of year and month (`Projection.MonthLabel`).
- `format_currency`, the printing in `print_results` (including the month-by-month listing) and `main`: presentation only.
- The `reinvest_dividends` flag: read but never used by the calculation.
- `Ranking.SortDesc`: Python's built-in `list.sort` is not source of this program. It is modelled as a stable insertion sort on a sequence, not as an in-place algorithm.

## Findings

| source | as written | input that shows it | evidently intended | confidence | as-written member | corrected member |
|---|---|---|---|---|---|---|
| mmf_analyzer.py:33-38 | `not self.mgt_fee or ... or self.mgt_fee < 0` also refuses a fee of exactly 0, because `not Decimal("0")` is true | name "A", rate 10, fee 0, minimum 100: refused as an invalid management fee (`Inputs.ZeroFeeRefused`) | a fee-free fund is accepted; only negative fees are refused, as the `< 0` test says | not executed; high | Inputs.NewFundAsWritten | Inputs.NewFund |
| mmf_analyzer.py:39-44 | `not self.minimum_investment or ... < 0` also refuses a minimum investment of exactly 0 | name "A", rate 10, fee 1, minimum 0: refused as an invalid minimum investment (`Inputs.ZeroMinimumRefused`) | a fund without a minimum investment is accepted; only negative minimums are refused | not executed; high | Inputs.NewFundAsWritten | Inputs.NewFund |
