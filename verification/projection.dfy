/**
 * The multi-month projection (`calculate_returns`): settle one month after
 * another from the start date, carrying the balance forward, accumulating
 * interest, fees and contributions, and advancing the date one calendar month
 * at a time; then the net return on the total contribution.
 */
module Projection {
  import opened Outcomes
  import opened Calendar
  import opened Inputs
  import opened Settlement

  /**
   * The month a balance is recorded against (what `get_month_name` prints as
   * "%B %Y"): its year and month.
   */
  datatype MonthLabel = MonthLabel(year: int, month: int)

  function Label(d: Date): MonthLabel {
    MonthLabel(d.year, d.month)
  }

  /** The running state of the monthly loop. */
  datatype Totals = Totals(
    balance: real,
    totalInterest: real,
    totalFees: real,
    totalContribution: real,
    date: Date,
    monthlyBalances: seq<(MonthLabel, real)>,
    dailyDetails: seq<DayEntry>)

  /** What a successful projection returns. */
  datatype Projection = Projection(
    finalBalance: real,
    totalInterest: real,
    totalFees: real,
    totalContribution: real,
    monthlyBalances: seq<(MonthLabel, real)>,
    dailyDetails: seq<DayEntry>,
    netReturnPercent: real)

  /** A failed projection, tagged with the fund's name. */
  datatype CalcFailure = CalcFailure(fundName: string, cause: CalcError)

  /** `int(investment_period)`: the period truncated toward zero. */
  function IntPeriod(p: Params): (k: int)
    ensures p.investmentPeriod >= 0.0 ==> 0 <= k && k as real <= p.investmentPeriod < k as real + 1.0
    ensures p.investmentPeriod < 0.0 ==> k <= 0 && k as real - 1.0 < p.investmentPeriod <= k as real
  {
    if p.investmentPeriod >= 0.0 then p.investmentPeriod.Floor else -((-p.investmentPeriod).Floor)
  }

  /**
   * The number of months projected: `int()` truncates the period toward zero,
   * and a count below one makes the month loop empty.
   */
  function MonthCount(p: Params): (n: nat)
    ensures n == 0 <==> p.investmentPeriod < 1.0
    ensures n > 0 ==> n as real <= p.investmentPeriod < n as real + 1.0
  {
    if p.investmentPeriod >= 1.0 then p.investmentPeriod.Floor else 0
  }

  /** The month loop runs `range(int(period))`: `int(period)` times, and not at all for a negative count. */
  lemma MonthCountIsRange(p: Params)
    ensures MonthCount(p) == if IntPeriod(p) > 0 then IntPeriod(p) else 0
  {
  }

  /** The state before the first month: the initial capital, recorded against the start month. */
  function Start(p: Params): Totals {
    Totals(p.initialCapital, 0.0, 0.0, p.initialCapital, p.startDate,
           [(Label(p.startDate), p.initialCapital)], [])
  }

  /**
   * Month `month` of the loop applied to state `s`; the next date is
   * `add_months(s.date, 1)`, written as `NextMonth`.
   */
  function Step(fund: Fund, p: Params, s: Totals, month: nat): (r: Result<Totals, CalcError>)
    requires Valid(s.date)
    ensures r.Ok? ==> Valid(r.value.date) && MonthIndex(r.value.date) == MonthIndex(s.date) + 1
  {
    match SettlePeriod(fund, p, s.date, month, s.balance)
    case Err(e) => Err(e)
    case Ok(m) =>
      match NextMonth(s.date)
      case None => Err(YearOutOfRange)
      case Some(next) =>
        Ok(Totals(m.balance, s.totalInterest + m.interest, s.totalFees + m.fee,
                  s.totalContribution + Contribution(p, month), next,
                  s.monthlyBalances + [(Label(next), m.balance)], s.dailyDetails + m.dailyBalances))
  }

  /** The state after the first `n` months, or the failure that stopped the loop. */
  function Run(fund: Fund, p: Params, n: nat): (r: Result<Totals, CalcError>)
    requires Valid(p.startDate)
    ensures r.Ok? ==> Valid(r.value.date) && MonthIndex(r.value.date) == MonthIndex(p.startDate) + n
  {
    if n == 0 then Ok(Start(p))
    else
      match Run(fund, p, n - 1)
      case Err(e) => Err(e)
      case Ok(s) => Step(fund, p, s, n - 1)
  }

  /**
   * The net return in percent: the gain over the total contribution, or 0 when
   * nothing was contributed (its meaning is `NetReturnInverse`).
   */
  function NetReturn(balance: real, contribution: real): real {
    if contribution != 0.0 then (balance - contribution) / contribution * 100.0 else 0.0
  }

  /**
   * The net return recovers the balance from the contribution, is 0 without a
   * contribution, and on a positive contribution is non-negative exactly when
   * the balance has not fallen below it.
   */
  lemma NetReturnInverse(balance: real, contribution: real)
    ensures var r := NetReturn(balance, contribution);
      && (contribution != 0.0 ==> balance == contribution + r * contribution / 100.0)
      && (contribution == 0.0 ==> r == 0.0)
      && (contribution > 0.0 ==> (r >= 0.0 <==> balance >= contribution))
  {
  }

  /** `calculate_returns` as a function of the fund and the parameters. */
  function Project(fund: Fund, p: Params): Result<Projection, CalcFailure>
    requires Valid(p.startDate)
  {
    match Run(fund, p, MonthCount(p))
    case Err(e) => Err(CalcFailure(fund.name, e))
    case Ok(s) => Ok(Finish(s))
  }

  /** The projection reported for the final state of the loop. */
  function Finish(s: Totals): Projection {
    Projection(s.balance, s.totalInterest, s.totalFees, s.totalContribution,
               s.monthlyBalances, s.dailyDetails, NetReturn(s.balance, s.totalContribution))
  }

  /** Once the loop has failed it stays failed, with the same cause. */
  lemma {:induction false} RunFailsFrom(fund: Fund, p: Params, k: nat, n: nat)
    requires Valid(p.startDate) && k <= n
    requires Run(fund, p, k).Err?
    ensures Run(fund, p, n) == Run(fund, p, k)
    decreases n
  {
    if k < n {
      RunFailsFrom(fund, p, k, n - 1);
    }
  }

  /**
   * A month that settles and whose successor month exists extends the loop by
   * one step: the new state, field by field.
   */
  lemma RunNext(fund: Fund, p: Params, n: nat, m: PeriodResult, next: Date)
    requires Valid(p.startDate) && Run(fund, p, n).Ok?
    requires SettlePeriod(fund, p, Run(fund, p, n).value.date, n, Run(fund, p, n).value.balance) == Ok(m)
    requires NextMonth(Run(fund, p, n).value.date) == Some(next)
    ensures Run(fund, p, n + 1).Ok?
    ensures var s, t := Run(fund, p, n).value, Run(fund, p, n + 1).value;
      && t.balance == m.balance
      && t.totalInterest == s.totalInterest + m.interest
      && t.totalFees == s.totalFees + m.fee
      && t.totalContribution == s.totalContribution + Contribution(p, n)
      && t.date == next
      && t.monthlyBalances == s.monthlyBalances + [(Label(next), m.balance)]
      && t.dailyDetails == s.dailyDetails + m.dailyBalances
  {
    RunUnfold(fund, p, n);
    StepNext(fund, p, n, Run(fund, p, n).value, m, next);
  }

  /**
   * A successful month `n` came from a successful month `n - 1` whose month
   * settled and whose next month exists: the state, field by field.
   */
  lemma RunBack(fund: Fund, p: Params, n: nat)
    requires Valid(p.startDate) && n > 0 && Run(fund, p, n).Ok?
    ensures Run(fund, p, n - 1).Ok?
    ensures var s := Run(fund, p, n - 1).value;
      SettlePeriod(fund, p, s.date, n - 1, s.balance).Ok? && NextMonth(s.date).Some?
    ensures var s, t := Run(fund, p, n - 1).value, Run(fund, p, n).value;
      var m := SettlePeriod(fund, p, s.date, n - 1, s.balance).value;
      && t.balance == m.balance
      && t.totalInterest == s.totalInterest + m.interest
      && t.totalFees == s.totalFees + m.fee
      && t.totalContribution == s.totalContribution + Contribution(p, n - 1)
      && t.date == NextMonth(s.date).value
      && t.monthlyBalances == s.monthlyBalances + [(Label(t.date), m.balance)]
      && t.dailyDetails == s.dailyDetails + m.dailyBalances
  {
    RunUnfold(fund, p, n - 1);
  }

  /** The loop's next state is one step from its current one. */
  lemma RunUnfold(fund: Fund, p: Params, n: nat)
    requires Valid(p.startDate) && Run(fund, p, n).Ok?
    ensures Run(fund, p, n + 1) == Step(fund, p, Run(fund, p, n).value, n)
  {
  }

  /** A step whose month settles and whose next month exists. */
  lemma StepNext(fund: Fund, p: Params, n: nat, s: Totals, m: PeriodResult, next: Date)
    requires Valid(s.date)
    requires SettlePeriod(fund, p, s.date, n, s.balance) == Ok(m)
    requires NextMonth(s.date) == Some(next)
    ensures Step(fund, p, s, n) ==
      Ok(Totals(m.balance, s.totalInterest + m.interest, s.totalFees + m.fee,
                s.totalContribution + Contribution(p, n), next,
                s.monthlyBalances + [(Label(next), m.balance)], s.dailyDetails + m.dailyBalances))
  {
  }

  /** A month that fails to settle stops the loop with the settlement's failure. */
  lemma RunNextUnsettled(fund: Fund, p: Params, n: nat, s: Totals)
    requires Valid(p.startDate) && Run(fund, p, n).Ok? && s == Run(fund, p, n).value
    requires SettlePeriod(fund, p, s.date, n, s.balance).Err?
    ensures Run(fund, p, n + 1) == Err(SettlePeriod(fund, p, s.date, n, s.balance).error)
  {
    assert Run(fund, p, n + 1) == Step(fund, p, s, n);
  }

  /** A month whose successor month is past year 9999 stops the loop. */
  lemma RunNextNoMonth(fund: Fund, p: Params, n: nat, s: Totals)
    requires Valid(p.startDate) && Run(fund, p, n).Ok? && s == Run(fund, p, n).value
    requires SettlePeriod(fund, p, s.date, n, s.balance).Ok?
    requires NextMonth(s.date).None?
    ensures Run(fund, p, n + 1) == Err(YearOutOfRange)
  {
    assert Run(fund, p, n + 1) == Step(fund, p, s, n);
  }

  /** The projection is the loop's state after `MonthCount` months, or its failure tagged with the fund. */
  lemma ProjectFromRun(fund: Fund, p: Params)
    requires Valid(p.startDate)
    ensures var run := Run(fund, p, MonthCount(p));
      && (run.Err? ==> Project(fund, p) == Err(CalcFailure(fund.name, run.error)))
      && (run.Ok? ==> Project(fund, p) == Ok(Finish(run.value)))
  {
  }

  /** A loop that has failed within the projected months fails the projection, with the same cause. */
  lemma ProjectFailsFrom(fund: Fund, p: Params, k: nat)
    requires Valid(p.startDate) && k <= MonthCount(p)
    requires Run(fund, p, k).Err?
    ensures Project(fund, p) == Err(CalcFailure(fund.name, Run(fund, p, k).error))
  {
    RunFailsFrom(fund, p, k, MonthCount(p));
    ProjectFromRun(fund, p);
  }

  /**
   * `calculate_returns`: the month loop over `calculate_monthly_returns` and
   * `add_months`, then the net return.  Its result is `Project`.
   */
  method CalculateReturns(fund: Fund, p: Params) returns (r: Result<Projection, CalcFailure>)
    requires Valid(p.startDate)
    ensures r == Project(fund, p)
  {
    var balance := p.initialCapital;
    var totalInterest := 0.0;
    var totalFees := 0.0;
    var totalContribution := p.initialCapital;
    var currentDate := p.startDate;
    var monthlyBalances := [(Label(currentDate), balance)];
    var dailyDetails: seq<DayEntry> := [];
    var months := MonthCount(p);
    for month := 0 to months
      invariant Run(fund, p, month).Ok?
      invariant var s := Run(fund, p, month).value;
        && s.balance == balance && s.totalInterest == totalInterest && s.totalFees == totalFees
        && s.totalContribution == totalContribution && s.date == currentDate
        && s.monthlyBalances == monthlyBalances && s.dailyDetails == dailyDetails
    {
      ghost var s := Run(fund, p, month).value;
      var monthly := CalculateMonthlyReturns(fund, p, currentDate, month, balance);
      if monthly.Err? {
        RunNextUnsettled(fund, p, month, s);
        ProjectFailsFrom(fund, p, month + 1);
        return Err(CalcFailure(fund.name, monthly.error));
      }
      balance := monthly.value.balance;
      totalInterest := totalInterest + monthly.value.interest;
      totalFees := totalFees + monthly.value.fee;
      if month > 0 {
        totalContribution := totalContribution + p.monthlyContribution;
      }
      assert totalContribution == s.totalContribution + Contribution(p, month);
      var next := AddMonths(currentDate, 1);
      NextMonthIsAddMonths(currentDate);
      if next.None? {
        RunNextNoMonth(fund, p, month, s);
        ProjectFailsFrom(fund, p, month + 1);
        return Err(CalcFailure(fund.name, YearOutOfRange));
      }
      currentDate := next.value;
      monthlyBalances := monthlyBalances + [(Label(currentDate), balance)];
      dailyDetails := dailyDetails + monthly.value.dailyBalances;
      RunNext(fund, p, month, monthly.value, currentDate);
    }
    ProjectFromRun(fund, p);
    var netReturn := NetReturn(balance, totalContribution);
    assert Projection(balance, totalInterest, totalFees, totalContribution, monthlyBalances, dailyDetails, netReturn)
        == Finish(Run(fund, p, months).value);
    return Ok(Projection(balance, totalInterest, totalFees, totalContribution, monthlyBalances, dailyDetails, netReturn));
  }

  /** Interest sums over a concatenation add up. */
  lemma {:induction false} SumInterestAppend(a: seq<DayEntry>, b: seq<DayEntry>)
    ensures SumInterest(a + b) == SumInterest(a) + SumInterest(b)
    decreases |b|
  {
    if b != [] {
      var b' := b[..|b| - 1];
      SumInterestAppend(a, b');
      assert (a + b)[..|a + b| - 1] == a + b';
    } else {
      assert a + b == a;
    }
  }

  /**
   * One month of bookkeeping: month `n` records the new balance against the new
   * month, adds the month's contribution to the total, and keeps the identities
   * "balance = contribution + interest - fees" and "total interest = interest of
   * the daily details"; without fees the fee total does not move.
   */
  lemma MonthTotals(fund: Fund, p: Params, n: nat)
    requires Valid(p.startDate) && n > 0
    requires Run(fund, p, n).Ok?
    ensures Run(fund, p, n - 1).Ok?
    ensures var s := Run(fund, p, n - 1).value;
      var t := Run(fund, p, n).value;
      && t.monthlyBalances == s.monthlyBalances + [(Label(t.date), t.balance)]
      && t.totalContribution == s.totalContribution + Contribution(p, n - 1)
      && t.balance - (t.totalContribution + t.totalInterest - t.totalFees)
         == s.balance - (s.totalContribution + s.totalInterest - s.totalFees)
      && t.totalInterest - SumInterest(t.dailyDetails) == s.totalInterest - SumInterest(s.dailyDetails)
      && (!p.includeFees ==> t.totalFees == s.totalFees)
  {
    RunBack(fund, p, n);
    var s := Run(fund, p, n - 1).value;
    SettlementBalance(fund, p, s.date, n - 1, s.balance);
    SumInterestAppend(s.dailyDetails, SettlePeriod(fund, p, s.date, n - 1, s.balance).value.dailyBalances);
  }

  /**
   * After `n` months there is one recorded balance per month plus the initial
   * one: the first is the initial capital at the start month, the last the
   * current balance at the current month.
   */
  lemma {:induction false} RunRecords(fund: Fund, p: Params, n: nat)
    requires Valid(p.startDate)
    requires Run(fund, p, n).Ok?
    ensures var s := Run(fund, p, n).value;
      && |s.monthlyBalances| == n + 1
      && s.monthlyBalances[0] == (Label(p.startDate), p.initialCapital)
      && s.monthlyBalances[n] == (Label(s.date), s.balance)
  {
    if n > 0 {
      RunRecords(fund, p, n - 1);
      MonthTotals(fund, p, n);
    }
  }

  /** The contributions of the first `n` months, added one month at a time. */
  function ContributionSum(p: Params, n: nat): real {
    if n == 0 then 0.0 else ContributionSum(p, n - 1) + Contribution(p, n - 1)
  }

  /** Every month but the first contributes once. */
  lemma {:induction false} ContributionSumClosed(p: Params, n: nat)
    ensures ContributionSum(p, n) == if n > 0 then (n - 1) as real * p.monthlyContribution else 0.0
  {
    if n > 1 {
      ContributionSumClosed(p, n - 1);
      OneMore(n - 2, p.monthlyContribution);
    }
  }

  lemma OneMore(k: nat, m: real)
    ensures (k + 1) as real * m == k as real * m + m
  {
  }

  /** After `n` months the contribution total is the initial capital plus the months' contributions. */
  lemma {:induction false} RunContribution(fund: Fund, p: Params, n: nat)
    requires Valid(p.startDate)
    requires Run(fund, p, n).Ok?
    ensures Run(fund, p, n).value.totalContribution == p.initialCapital + ContributionSum(p, n)
  {
    if n > 0 {
      RunContribution(fund, p, n - 1);
      MonthTotals(fund, p, n);
    }
  }

  /**
   * After `n` months the balance is the contribution plus the interest less
   * the fees, the interest total is the sum of the daily interest, and without
   * fees nothing has been charged.
   */
  lemma {:induction false} RunTotals(fund: Fund, p: Params, n: nat)
    requires Valid(p.startDate)
    requires Run(fund, p, n).Ok?
    ensures var s := Run(fund, p, n).value;
      && s.balance == s.totalContribution + s.totalInterest - s.totalFees
      && s.totalInterest == SumInterest(s.dailyDetails)
      && (!p.includeFees ==> s.totalFees == 0.0)
  {
    if n > 0 {
      RunTotals(fund, p, n - 1);
      MonthTotals(fund, p, n);
    }
  }

  /**
   * Month `n` adds one daily entry per day of the month it starts in, and moves
   * the date to the same day (clamped) of the next month.
   */
  lemma MonthDaysAdded(fund: Fund, p: Params, n: nat)
    requires Valid(p.startDate) && n > 0
    requires Run(fund, p, n).Ok?
    ensures Run(fund, p, n - 1).Ok?
    ensures var s := Run(fund, p, n - 1).value;
      var t := Run(fund, p, n).value;
      && |t.dailyDetails| == |s.dailyDetails| + MonthDays(s.date)
      && NextMonth(s.date).Some? && t.date == NextMonth(s.date).value
  {
    RunBack(fund, p, n);
    var s := Run(fund, p, n - 1).value;
    SettlementDays(fund, p, s.date, n - 1, s.balance);
  }

  /**
   * After `n` months the daily details hold as many entries as there are days
   * from the first of the start month to the first of the current month. Only
   * the count is stated: a month step that clamps the day repeats some dates
   * and skips others (see `Calendar.NextPeriodStart`).
   */
  lemma {:induction false} RunDays(fund: Fund, p: Params, n: nat)
    requires Valid(p.startDate)
    requires Run(fund, p, n).Ok?
    ensures var s := Run(fund, p, n).value;
      |s.dailyDetails| == (Ordinal(s.date) - s.date.day) - (Ordinal(p.startDate) - p.startDate.day)
  {
    if n > 0 {
      RunDays(fund, p, n - 1);
      MonthDaysAdded(fund, p, n);
      NextPeriodStart(Run(fund, p, n - 1).value.date);
    }
  }

  /**
   * A successful projection: `investment_period + 1` monthly balances starting
   * with the initial capital and ending with the final balance, the final
   * balance as contribution plus interest less fees, the interest as the sum
   * over the daily details, no fees when fees are off, and the net return of the
   * final balance on the contribution.
   */
  lemma ProjectionTotals(fund: Fund, p: Params)
    requires Valid(p.startDate)
    requires Project(fund, p).Ok?
    ensures var r := Project(fund, p).value;
      var n := MonthCount(p);
      && |r.monthlyBalances| == n + 1
      && r.monthlyBalances[0] == (Label(p.startDate), p.initialCapital)
      && r.monthlyBalances[n].1 == r.finalBalance
      && r.finalBalance == r.totalContribution + r.totalInterest - r.totalFees
      && r.totalInterest == SumInterest(r.dailyDetails)
      && (!p.includeFees ==> r.totalFees == 0.0)
      && r.netReturnPercent == NetReturn(r.finalBalance, r.totalContribution)
  {
    RunRecords(fund, p, MonthCount(p));
    RunTotals(fund, p, MonthCount(p));
  }

  /** After `n` months the contribution total is the initial capital plus one contribution per month after the first. */
  lemma RunContributionClosed(fund: Fund, p: Params, n: nat)
    requires Valid(p.startDate)
    requires Run(fund, p, n).Ok?
    ensures Run(fund, p, n).value.totalContribution ==
      p.initialCapital + (if n > 0 then (n - 1) as real * p.monthlyContribution else 0.0)
  {
    RunContribution(fund, p, n);
    ContributionSumClosed(p, n);
  }

  /**
   * The contribution total of a successful projection: the initial capital and
   * one monthly contribution for each month after the first.
   */
  lemma ProjectionContribution(fund: Fund, p: Params)
    requires Valid(p.startDate)
    requires Project(fund, p).Ok?
    ensures var n := MonthCount(p);
      Project(fund, p).value.totalContribution ==
        p.initialCapital + (if n > 0 then (n - 1) as real * p.monthlyContribution else 0.0)
  {
    RunContributionClosed(fund, p, MonthCount(p));
  }

  /**
   * Where the month after one starting on `d` starts: the failure when the
   * last day of the month `d` starts is past 9999-12-31 or the next month is
   * past year 9999, and otherwise `add_months(d, 1)`.
   */
  function NextStart(d: Date): (r: Result<Date, CalcError>)
    requires Valid(d)
    ensures r.Ok? ==> Valid(r.value)
  {
    if AddDays(d, MonthDays(d) - 1).None? then Err(DateOutOfRange)
    else
      match NextMonth(d)
      case None => Err(YearOutOfRange)
      case Some(next) => Ok(next)
  }

  /**
   * The dates the loop goes through, which depend on the start date alone: the
   * start of month `n`, or the failure that stops the loop first.
   */
  function Schedule(start: Date, n: nat): (r: Result<Date, CalcError>)
    requires Valid(start)
    ensures r.Ok? ==> Valid(r.value)
  {
    if n == 0 then Ok(start)
    else
      match Schedule(start, n - 1)
      case Err(e) => Err(e)
      case Ok(d) => NextStart(d)
  }

  /** The schedule one month further: stopped where it stopped, and otherwise the start after its current one. */
  lemma ScheduleUnfold(start: Date, n: nat)
    requires Valid(start) && n > 0
    ensures Schedule(start, n - 1).Err? ==> Schedule(start, n) == Schedule(start, n - 1)
    ensures Schedule(start, n - 1).Ok? ==> Schedule(start, n) == NextStart(Schedule(start, n - 1).value)
  {
  }

  /** One month of the loop fails exactly where the schedule does, and otherwise ends at the scheduled date. */
  lemma StepFollowsSchedule(fund: Fund, p: Params, s: Totals, month: nat)
    requires Valid(s.date)
    ensures Step(fund, p, s, month).Err? <==> NextStart(s.date).Err?
    ensures Step(fund, p, s, month).Err? ==> Step(fund, p, s, month).error == NextStart(s.date).error
    ensures Step(fund, p, s, month).Ok? ==> Step(fund, p, s, month).value.date == NextStart(s.date).value
  {
    SettlementFails(fund, p, s.date, month, s.balance);
    AddDaysOrdinal(s.date, MonthDays(s.date) - 1);
  }

  /** The loop's outcome `r` matches the schedule's `sch`: the same failure, or a state at the scheduled date. */
  predicate Follows(r: Result<Totals, CalcError>, sch: Result<Date, CalcError>) {
    && (r.Err? <==> sch.Err?)
    && (r.Err? ==> r.error == sch.error)
    && (r.Ok? ==> r.value.date == sch.value)
  }

  /** A failed loop stays as it is one month later. */
  lemma RunStaysFailed(fund: Fund, p: Params, n: nat)
    requires Valid(p.startDate) && Run(fund, p, n).Err?
    ensures Run(fund, p, n + 1).Err? && Run(fund, p, n + 1).error == Run(fund, p, n).error
  {
  }

  /** `StepFollowsSchedule` for the step the loop takes after month `n`. */
  lemma RunStepFollowsSchedule(fund: Fund, p: Params, n: nat)
    requires Valid(p.startDate) && Run(fund, p, n).Ok?
    ensures Valid(Run(fund, p, n).value.date)
    ensures Follows(Run(fund, p, n + 1), NextStart(Run(fund, p, n).value.date))
  {
    RunUnfold(fund, p, n);
    StepFollowsSchedule(fund, p, Run(fund, p, n).value, n);
  }

  /** Before the first month the loop is at the start date, where the schedule begins. */
  lemma FollowsAtStart(fund: Fund, p: Params)
    requires Valid(p.startDate)
    ensures Follows(Run(fund, p, 0), Schedule(p.startDate, 0))
  {
  }

  /**
   * One month on, the loop still follows the schedule: a failure is kept on both
   * sides, and otherwise both move to the start after the current date.
   */
  lemma FollowsNext(prev: Result<Totals, CalcError>, cur: Result<Totals, CalcError>,
                    sprev: Result<Date, CalcError>, scur: Result<Date, CalcError>)
    requires Follows(prev, sprev)
    requires prev.Err? ==> cur.Err? && cur.error == prev.error
    requires prev.Ok? ==> Valid(prev.value.date) && Follows(cur, NextStart(prev.value.date))
    requires sprev.Err? ==> scur == sprev
    requires sprev.Ok? ==> Valid(sprev.value) && scur == NextStart(sprev.value)
    ensures Follows(cur, scur)
  {
  }

  /** If the loop follows the schedule at month `n - 1`, it does so at month `n`. */
  lemma FollowsOneMore(fund: Fund, p: Params, n: nat)
    requires Valid(p.startDate) && n > 0
    requires Follows(Run(fund, p, n - 1), Schedule(p.startDate, n - 1))
    ensures Follows(Run(fund, p, n), Schedule(p.startDate, n))
  {
    ScheduleUnfold(p.startDate, n);
    if Run(fund, p, n - 1).Ok? {
      RunStepFollowsSchedule(fund, p, n - 1);
    } else {
      RunStaysFailed(fund, p, n - 1);
    }
    FollowsNext(Run(fund, p, n - 1), Run(fund, p, n), Schedule(p.startDate, n - 1), Schedule(p.startDate, n));
  }

  /** The loop follows the schedule: it fails where the schedule does, and otherwise is at the scheduled date. */
  lemma {:induction false} RunFollowsSchedule(fund: Fund, p: Params, n: nat)
    requires Valid(p.startDate)
    ensures Follows(Run(fund, p, n), Schedule(p.startDate, n))
  {
    if n == 0 {
      FollowsAtStart(fund, p);
    } else {
      RunFollowsSchedule(fund, p, n - 1);
      FollowsOneMore(fund, p, n);
    }
  }

  /** The next start fails exactly from December 9999; otherwise it is one calendar month later. */
  lemma NextStartFails(d: Date)
    requires Valid(d)
    ensures NextStart(d).Err? <==> MonthIndex(d) == MaxYear * 12 + 11
    ensures NextStart(d).Ok? ==> MonthIndex(NextStart(d).value) == MonthIndex(d) + 1
  {
    if MonthIndex(d) < MaxYear * 12 + 11 {
      MonthEndInRange(d);
      AddDaysOrdinal(d, MonthDays(d) - 1);
      assert NextMonth(d).Some?;
    } else {
      assert d.year == MaxYear && d.month == 12;
      assert NextMonth(d).None?;
    }
  }

  /** The schedule fails exactly once it would pass December 9999, and otherwise sits `n` months after the start. */
  lemma {:induction false} ScheduleFails(start: Date, n: nat)
    requires Valid(start)
    ensures Schedule(start, n).Err? <==> MonthIndex(start) + n > MaxYear * 12 + 11
    ensures Schedule(start, n).Ok? ==> MonthIndex(Schedule(start, n).value) == MonthIndex(start) + n
  {
    if n > 0 {
      ScheduleFails(start, n - 1);
      ScheduleUnfold(start, n);
      if Schedule(start, n - 1).Ok? {
        NextStartFails(Schedule(start, n - 1).value);
      }
    }
  }

  /**
   * `print_results` computes the end date `add_months(start, int(period))`
   * before it projects any fund. For a period of zero or more months that step
   * fails for exactly the parameters whose projections fail, whatever the fund;
   * for a negative period the month loop is empty and every projection succeeds.
   */
  lemma EndDateGuardsProjection(fund: Fund, p: Params)
    requires Valid(p.startDate)
    ensures IntPeriod(p) >= 0 ==> (AddMonths(p.startDate, IntPeriod(p)).None? <==> Project(fund, p).Err?)
    ensures IntPeriod(p) < 0 ==> Project(fund, p).Ok?
  {
    MonthCountIsRange(p);
    RunFollowsSchedule(fund, p, MonthCount(p));
    ScheduleFails(p.startDate, MonthCount(p));
  }

  /**
   * Whether a projection fails, and why, does not depend on the fund: in this
   * model, with exact arithmetic, only the calendar can make it fail.
   */
  lemma FailureIndependentOfFund(f1: Fund, f2: Fund, p: Params)
    requires Valid(p.startDate)
    ensures Project(f1, p).Err? <==> Project(f2, p).Err?
    ensures Project(f1, p).Err? ==> Project(f1, p).error.cause == Project(f2, p).error.cause
    ensures Project(f1, p).Err? ==> Project(f1, p).error.fundName == f1.name
  {
    RunFollowsSchedule(f1, p, MonthCount(p));
    RunFollowsSchedule(f2, p, MonthCount(p));
  }
}
