/**
 * Monthly settlement (`calculate_monthly_returns`): the contribution is added
 * (except in the first month), interest accrues day by day over the number of
 * days in the month of the period's start date, and the management fee is
 * deducted at the end when fees are enabled.
 */
module Settlement {
  import opened Outcomes
  import opened Calendar
  import opened Inputs
  import opened Accrual

  /** One entry of the daily trace: the date, the balance after that day's interest, and the interest. */
  datatype DayEntry = DayEntry(date: Date, balance: real, interest: real)

  /** What one month yields: closing balance, interest earned, fee charged and the daily trace. */
  datatype PeriodResult = PeriodResult(balance: real, interest: real, fee: real, dailyBalances: seq<DayEntry>)

  /**
   * The failures a projection can meet: a day of the trace past 9999-12-31
   * (`date + timedelta` overflows), or a month advanced past year 9999
   * (`add_months` builds a date with an invalid year).
   */
  datatype CalcError = DateOutOfRange | YearOutOfRange

  /** The balance after the last entry of a trace, or the opening balance of an empty one. */
  function LastBalance(trace: seq<DayEntry>, opening: real): real {
    if trace == [] then opening else trace[|trace| - 1].balance
  }

  /** The balance before entry `i` of a trace. */
  function BalanceBefore(trace: seq<DayEntry>, i: nat, opening: real): real
    requires i <= |trace|
  {
    if i == 0 then opening else trace[i - 1].balance
  }

  /** Sum of the interest of a trace's entries. */
  function SumInterest(trace: seq<DayEntry>): real {
    if trace == [] then 0.0 else SumInterest(trace[..|trace| - 1]) + trace[|trace| - 1].interest
  }

  /**
   * The first `n` entries of the daily trace of a period that starts on `start`
   * and accrues from `opening`, or `None` when a date runs past 9999-12-31.
   */
  function DayTrace(start: Date, opening: real, dailyRate: real, tax: real, n: nat): Option<seq<DayEntry>>
    requires Valid(start)
  {
    if n == 0 then Some([])
    else
      match DayTrace(start, opening, dailyRate, tax, n - 1)
      case None => None
      case Some(prev) =>
        match AddDays(start, n - 1)
        case None => None
        case Some(date) =>
          Some(prev + [Accrue(date, LastBalance(prev, opening), dailyRate, tax)])
  }

  /** The entry of one day: that day's after-tax interest on `before`, and the balance it leaves. */
  function Accrue(date: Date, before: real, dailyRate: real, tax: real): (e: DayEntry)
    ensures e.date == date && e.balance == before + e.interest
  {
    var interest := DailyInterest(before, dailyRate, tax);
    DayEntry(date, before + interest, interest)
  }

  /** The contribution added at the start of month `month`: none in month 0. */
  function Contribution(p: Params, month: int): real {
    if month > 0 then p.monthlyContribution else 0.0
  }

  /** The fee charged at the end of a month: the management fee when fees are on, nothing otherwise. */
  function PeriodFee(fund: Fund, p: Params, opening: real, closing: real): real {
    if p.includeFees then ManagementFee(opening, closing, fund.mgtFee) else 0.0
  }

  /** The settlement of one month, as a function of its inputs. */
  function SettlePeriod(fund: Fund, p: Params, currentDate: Date, month: int, startingBalance: real): Result<PeriodResult, CalcError>
    requires Valid(currentDate)
  {
    var accrualStart := startingBalance + Contribution(p, month);
    match DayTrace(currentDate, accrualStart, DailyRate(fund.rate), p.withholdingTax, MonthDays(currentDate))
    case None => Err(DateOutOfRange)
    case Some(trace) =>
      var closing := LastBalance(trace, accrualStart);
      var fee := PeriodFee(fund, p, startingBalance, closing);
      Ok(PeriodResult(closing - fee, SumInterest(trace), fee, trace))
  }

  /** Once a trace runs out of dates, every longer trace does too. */
  lemma {:induction false} TraceFailsFrom(start: Date, opening: real, dailyRate: real, tax: real, k: nat, n: nat)
    requires Valid(start) && k <= n
    requires DayTrace(start, opening, dailyRate, tax, k).None?
    ensures DayTrace(start, opening, dailyRate, tax, n).None?
    decreases n
  {
    if k < n {
      TraceFailsFrom(start, opening, dailyRate, tax, k, n - 1);
    }
  }

  /** One more day extends a trace by the entry for that day. */
  lemma TraceStep(start: Date, opening: real, dailyRate: real, tax: real, n: nat, prev: seq<DayEntry>, date: Date)
    requires Valid(start)
    requires DayTrace(start, opening, dailyRate, tax, n) == Some(prev)
    requires AddDays(start, n) == Some(date)
    ensures var entry := Accrue(date, LastBalance(prev, opening), dailyRate, tax);
      && DayTrace(start, opening, dailyRate, tax, n + 1) == Some(prev + [entry])
      && LastBalance(prev + [entry], opening) == entry.balance
      && SumInterest(prev + [entry]) == SumInterest(prev) + entry.interest
  {
    var entry := Accrue(date, LastBalance(prev, opening), dailyRate, tax);
    assert (prev + [entry])[..|prev|] == prev;
  }

  /** A day without a date ends every trace that reaches it. */
  lemma TraceStepFails(start: Date, opening: real, dailyRate: real, tax: real, n: nat, total: nat)
    requires Valid(start) && n < total
    requires AddDays(start, n).None?
    ensures DayTrace(start, opening, dailyRate, tax, total).None?
  {
    assert DayTrace(start, opening, dailyRate, tax, n + 1).None?;
    TraceFailsFrom(start, opening, dailyRate, tax, n + 1, total);
  }

  /** A day of the month without a date makes the month fail. */
  lemma SettleUndated(fund: Fund, p: Params, currentDate: Date, month: int, startingBalance: real, day: nat)
    requires Valid(currentDate) && day < MonthDays(currentDate)
    requires AddDays(currentDate, day).None?
    ensures SettlePeriod(fund, p, currentDate, month, startingBalance) == Err(DateOutOfRange)
  {
    TraceStepFails(currentDate, startingBalance + Contribution(p, month), DailyRate(fund.rate), p.withholdingTax,
                   day, MonthDays(currentDate));
  }

  /** A month settles from its complete trace: the fee on the average balance, then the closing balance. */
  lemma SettleFromTrace(fund: Fund, p: Params, currentDate: Date, month: int, startingBalance: real, trace: seq<DayEntry>)
    requires Valid(currentDate)
    requires DayTrace(currentDate, startingBalance + Contribution(p, month), DailyRate(fund.rate), p.withholdingTax,
                      MonthDays(currentDate)) == Some(trace)
    ensures SettlePeriod(fund, p, currentDate, month, startingBalance).Ok?
    ensures var closing := LastBalance(trace, startingBalance + Contribution(p, month));
      var fee := PeriodFee(fund, p, startingBalance, closing);
      var r := SettlePeriod(fund, p, currentDate, month, startingBalance).value;
      && r.balance == closing - fee && r.interest == SumInterest(trace) && r.fee == fee && r.dailyBalances == trace
  {
    var accrualStart := startingBalance + Contribution(p, month);
    var closing := LastBalance(trace, accrualStart);
    var fee := PeriodFee(fund, p, startingBalance, closing);
    var r := SettlePeriod(fund, p, currentDate, month, startingBalance);
    assert r.Ok?;
    assert r.value.fee == fee;
    assert r.value.balance == closing - fee;
  }

  /**
   * `calculate_monthly_returns`: the daily loop over the month, then the fee.
   * Its result is the settlement `SettlePeriod` describes.
   */
  method CalculateMonthlyReturns(fund: Fund, p: Params, currentDate: Date, month: int, startingBalance: real)
    returns (r: Result<PeriodResult, CalcError>)
    requires Valid(currentDate)
    ensures r == SettlePeriod(fund, p, currentDate, month, startingBalance)
  {
    var daysInMonth := MonthDays(currentDate);
    var dailyRate := DailyRate(fund.rate);
    var withholdingTax := p.withholdingTax;
    var openingBalance := startingBalance;
    var balance := startingBalance;
    if month > 0 {
      balance := balance + p.monthlyContribution;
    }
    ghost var accrualStart := balance;
    assert accrualStart == startingBalance + Contribution(p, month);
    var monthInterest := 0.0;
    var dailyBalances: seq<DayEntry> := [];
    for day := 0 to daysInMonth
      invariant DayTrace(currentDate, accrualStart, dailyRate, withholdingTax, day) == Some(dailyBalances)
      invariant balance == LastBalance(dailyBalances, accrualStart)
      invariant monthInterest == SumInterest(dailyBalances)
    {
      var date := AddDays(currentDate, day);
      if date.None? {
        SettleUndated(fund, p, currentDate, month, startingBalance, day);
        return Err(DateOutOfRange);
      }
      TraceStep(currentDate, accrualStart, dailyRate, withholdingTax, day, dailyBalances, date.value);
      var dailyInterest := DailyInterest(balance, dailyRate, withholdingTax);
      balance := balance + dailyInterest;
      monthInterest := monthInterest + dailyInterest;
      dailyBalances := dailyBalances + [DayEntry(date.value, balance, dailyInterest)];
    }
    ghost var closing := balance;
    var monthlyFee := 0.0;
    if p.includeFees {
      monthlyFee := ManagementFee(openingBalance, balance, fund.mgtFee);
      balance := balance - monthlyFee;
    }
    assert monthlyFee == PeriodFee(fund, p, startingBalance, closing);
    SettledAs(fund, p, currentDate, month, startingBalance, dailyBalances, balance, monthInterest, monthlyFee);
    return Ok(PeriodResult(balance, monthInterest, monthlyFee, dailyBalances));
  }

  /** A month whose trace exists settles to its closing balance less the fee, its summed interest, the fee and the trace. */
  lemma SettledAs(fund: Fund, p: Params, currentDate: Date, month: int, startingBalance: real, trace: seq<DayEntry>,
                  balance: real, interest: real, fee: real)
    requires Valid(currentDate)
    requires DayTrace(currentDate, startingBalance + Contribution(p, month), DailyRate(fund.rate), p.withholdingTax,
                      MonthDays(currentDate)) == Some(trace)
    requires fee == PeriodFee(fund, p, startingBalance, LastBalance(trace, startingBalance + Contribution(p, month)))
    requires balance == LastBalance(trace, startingBalance + Contribution(p, month)) - fee
    requires interest == SumInterest(trace)
    ensures SettlePeriod(fund, p, currentDate, month, startingBalance) == Ok(PeriodResult(balance, interest, fee, trace))
  {
    SettleFromTrace(fund, p, currentDate, month, startingBalance, trace);
  }

  /** A daily trace has one entry per day, entry `i` dated `i` days after the start. */
  lemma {:induction false} TraceDates(start: Date, opening: real, dailyRate: real, tax: real, n: nat, trace: seq<DayEntry>)
    requires Valid(start)
    requires DayTrace(start, opening, dailyRate, tax, n) == Some(trace)
    ensures |trace| == n
    ensures forall i :: 0 <= i < n ==> AddDays(start, i) == Some(trace[i].date)
  {
    if n > 0 {
      var prev := DayTrace(start, opening, dailyRate, tax, n - 1).value;
      TraceDates(start, opening, dailyRate, tax, n - 1, prev);
      var date := AddDays(start, n - 1).value;
      var entry := Accrue(date, LastBalance(prev, opening), dailyRate, tax);
      TraceStep(start, opening, dailyRate, tax, n - 1, prev, date);
      assert trace == prev + [entry];
      forall i | 0 <= i < n
        ensures AddDays(start, i) == Some(trace[i].date)
      {
        if i < n - 1 {
          assert trace[i] == prev[i];
        } else {
          assert i == n - 1 && trace[i] == entry && entry.date == date;
        }
      }
    }
  }

  /** The last balance of a daily trace is the opening balance plus the summed interest. */
  lemma {:induction false} TraceBalance(start: Date, opening: real, dailyRate: real, tax: real, n: nat, trace: seq<DayEntry>)
    requires Valid(start)
    requires DayTrace(start, opening, dailyRate, tax, n) == Some(trace)
    ensures LastBalance(trace, opening) == opening + SumInterest(trace)
  {
    if n > 0 {
      var prev := DayTrace(start, opening, dailyRate, tax, n - 1).value;
      TraceBalance(start, opening, dailyRate, tax, n - 1, prev);
      TraceStep(start, opening, dailyRate, tax, n - 1, prev, AddDays(start, n - 1).value);
    }
  }

  /** Each entry of a trace accrues one day's interest on the balance before it and adds it. */
  predicate Accrues(trace: seq<DayEntry>, opening: real, dailyRate: real, tax: real) {
    forall i :: 0 <= i < |trace| ==>
      && trace[i].interest == DailyInterest(BalanceBefore(trace, i, opening), dailyRate, tax)
      && trace[i].balance == BalanceBefore(trace, i, opening) + trace[i].interest
  }

  /** Every daily trace accrues day by day. */
  lemma {:induction false} TraceAccrues(start: Date, opening: real, dailyRate: real, tax: real, n: nat, trace: seq<DayEntry>)
    requires Valid(start)
    requires DayTrace(start, opening, dailyRate, tax, n) == Some(trace)
    ensures |trace| == n
    ensures Accrues(trace, opening, dailyRate, tax)
  {
    if n > 0 {
      var prev := DayTrace(start, opening, dailyRate, tax, n - 1).value;
      var date := AddDays(start, n - 1).value;
      var entry := Accrue(date, LastBalance(prev, opening), dailyRate, tax);
      TraceAccrues(start, opening, dailyRate, tax, n - 1, prev);
      TraceStep(start, opening, dailyRate, tax, n - 1, prev, date);
      assert trace == prev + [entry];
      AccruesSnoc(prev, entry, opening, dailyRate, tax);
    }
  }

  /** A trace that accrues still does after one more day accrued on its last balance. */
  lemma AccruesSnoc(prev: seq<DayEntry>, e: DayEntry, opening: real, dailyRate: real, tax: real)
    requires Accrues(prev, opening, dailyRate, tax)
    requires e.interest == DailyInterest(LastBalance(prev, opening), dailyRate, tax)
    requires e.balance == LastBalance(prev, opening) + e.interest
    ensures Accrues(prev + [e], opening, dailyRate, tax)
  {
    var t := prev + [e];
    forall i | 0 <= i < |t|
      ensures t[i].interest == DailyInterest(BalanceBefore(t, i, opening), dailyRate, tax)
      ensures t[i].balance == BalanceBefore(t, i, opening) + t[i].interest
    {
      if i < |prev| {
        assert t[i] == prev[i];
        if i > 0 {
          assert t[i - 1] == prev[i - 1];
        }
        assert BalanceBefore(t, i, opening) == BalanceBefore(prev, i, opening);
        assert prev[i].interest == DailyInterest(BalanceBefore(prev, i, opening), dailyRate, tax);
      } else {
        assert t[i] == e;
        if i > 0 {
          assert t[i - 1] == prev[|prev| - 1];
        }
        assert BalanceBefore(t, i, opening) == LastBalance(prev, opening);
      }
    }
  }

  /** A trace of `n` days exists exactly when its last date, `n - 1` days after the start, is representable. */
  lemma {:induction false} TraceDefined(start: Date, opening: real, dailyRate: real, tax: real, n: nat)
    requires Valid(start)
    ensures DayTrace(start, opening, dailyRate, tax, n).Some? <==> Ordinal(start) + n - 1 <= MaxOrdinal
  {
    if n == 0 {
      OrdinalRange(start);
    } else {
      TraceDefined(start, opening, dailyRate, tax, n - 1);
      AddDaysOrdinal(start, n - 1);
    }
  }

  lemma {:induction false} AccruesGrows(trace: seq<DayEntry>, opening: real, dailyRate: real, tax: real, k: nat)
    requires Accrues(trace, opening, dailyRate, tax) && k < |trace|
    requires opening >= 0.0 && dailyRate >= 0.0 && 0.0 <= tax <= 100.0
    ensures opening <= BalanceBefore(trace, k, opening) <= trace[k].balance
    ensures trace[k].interest >= 0.0
  {
    var before := BalanceBefore(trace, k, opening);
    if k > 0 {
      AccruesGrows(trace, opening, dailyRate, tax, k - 1);
      assert before == trace[k - 1].balance;
    }
    assert before >= opening;
    DailyInterestBounds(before, dailyRate, tax);
    assert trace[k].interest == DailyInterest(before, dailyRate, tax);
    assert trace[k].balance == before + trace[k].interest;
  }

  /** Each day's balance is at least the balance before it. */
  predicate StepsUp(trace: seq<DayEntry>, opening: real) {
    forall k :: 0 <= k < |trace| ==> BalanceBefore(trace, k, opening) <= trace[k].balance
  }

  lemma {:induction false} StepsOrdered(trace: seq<DayEntry>, opening: real, i: nat, j: nat)
    requires StepsUp(trace, opening) && i <= j < |trace|
    ensures BalanceBefore(trace, i, opening) <= trace[j].balance
    decreases j - i
  {
    if i < j {
      StepsOrdered(trace, opening, i + 1, j);
    }
  }

  /**
   * With a non-negative opening balance, rate and a tax of at most 100%, no day
   * earns negative interest and the balance never decreases along the trace.
   */
  lemma TraceNonDecreasing(start: Date, opening: real, dailyRate: real, tax: real, n: nat, trace: seq<DayEntry>)
    requires Valid(start)
    requires DayTrace(start, opening, dailyRate, tax, n) == Some(trace)
    requires opening >= 0.0 && dailyRate >= 0.0 && 0.0 <= tax <= 100.0
    ensures forall i :: 0 <= i < |trace| ==> trace[i].interest >= 0.0
    ensures forall i, j :: 0 <= i <= j < |trace| ==> opening <= trace[i].balance <= trace[j].balance
    ensures opening <= LastBalance(trace, opening) && SumInterest(trace) >= 0.0
  {
    TraceAccrues(start, opening, dailyRate, tax, n, trace);
    TraceBalance(start, opening, dailyRate, tax, n, trace);
    forall k | 0 <= k < |trace|
      ensures BalanceBefore(trace, k, opening) <= trace[k].balance && trace[k].interest >= 0.0
    {
      AccruesGrows(trace, opening, dailyRate, tax, k);
    }
    assert StepsUp(trace, opening);
    if trace != [] {
      StepsOrdered(trace, opening, 0, |trace| - 1);
    }
    forall i, j | 0 <= i <= j < |trace| ensures opening <= trace[i].balance <= trace[j].balance {
      StepsOrdered(trace, opening, 0, i);
      if i < j {
        StepsOrdered(trace, opening, i + 1, j);
      }
    }
  }

  /**
   * A settled month's trace has one entry per day of the month, dated from the
   * start date on.
   */
  lemma SettlementDays(fund: Fund, p: Params, currentDate: Date, month: int, startingBalance: real)
    requires Valid(currentDate)
    requires SettlePeriod(fund, p, currentDate, month, startingBalance).Ok?
    ensures var r := SettlePeriod(fund, p, currentDate, month, startingBalance).value;
      && |r.dailyBalances| == MonthDays(currentDate)
      && forall i :: 0 <= i < |r.dailyBalances| ==> AddDays(currentDate, i) == Some(r.dailyBalances[i].date)
  {
    var accrualStart := startingBalance + Contribution(p, month);
    var trace := DayTrace(currentDate, accrualStart, DailyRate(fund.rate), p.withholdingTax, MonthDays(currentDate)).value;
    TraceDates(currentDate, accrualStart, DailyRate(fund.rate), p.withholdingTax, MonthDays(currentDate), trace);
    var r := SettlePeriod(fund, p, currentDate, month, startingBalance).value;
    assert r.dailyBalances == trace;
    forall i | 0 <= i < |r.dailyBalances|
      ensures AddDays(currentDate, i) == Some(r.dailyBalances[i].date)
    {
      assert r.dailyBalances[i] == trace[i];
    }
  }

  /**
   * A settled month's interest is the sum of its daily interest, and its
   * closing balance is the opening balance plus the contribution plus that
   * interest less the fee, which is the rounded fee on the average of the
   * opening and pre-fee balances when fees are on, and nothing otherwise.
   */
  lemma SettlementBalance(fund: Fund, p: Params, currentDate: Date, month: int, startingBalance: real)
    requires Valid(currentDate)
    requires SettlePeriod(fund, p, currentDate, month, startingBalance).Ok?
    ensures var r := SettlePeriod(fund, p, currentDate, month, startingBalance).value;
      var preFee := startingBalance + Contribution(p, month) + r.interest;
      && r.interest == SumInterest(r.dailyBalances)
      && r.balance == preFee - r.fee
      && r.fee == PeriodFee(fund, p, startingBalance, preFee)
      && (p.includeFees ==> r.fee == ManagementFee(startingBalance, preFee, fund.mgtFee))
      && (!p.includeFees ==> r.fee == 0.0 && r.balance == preFee)
  {
    var accrualStart := startingBalance + Contribution(p, month);
    var trace := DayTrace(currentDate, accrualStart, DailyRate(fund.rate), p.withholdingTax, MonthDays(currentDate)).value;
    TraceBalance(currentDate, accrualStart, DailyRate(fund.rate), p.withholdingTax, MonthDays(currentDate), trace);
    SettleFromTrace(fund, p, currentDate, month, startingBalance, trace);
    var r := SettlePeriod(fund, p, currentDate, month, startingBalance).value;
    var closing := LastBalance(trace, accrualStart);
    assert r.dailyBalances == trace && r.interest == SumInterest(trace);
    assert closing == accrualStart + r.interest;
    assert r.fee == PeriodFee(fund, p, startingBalance, closing);
    assert r.balance == closing - r.fee;
  }

  /**
   * A month fails exactly when its last day lies past 9999-12-31; the fund, the
   * balance and the month number play no part.
   */
  lemma SettlementFails(fund: Fund, p: Params, currentDate: Date, month: int, startingBalance: real)
    requires Valid(currentDate)
    ensures SettlePeriod(fund, p, currentDate, month, startingBalance).Err? <==>
      Ordinal(currentDate) + MonthDays(currentDate) - 1 > MaxOrdinal
    ensures SettlePeriod(fund, p, currentDate, month, startingBalance).Err? ==>
      SettlePeriod(fund, p, currentDate, month, startingBalance).error == DateOutOfRange
  {
    TraceDefined(currentDate, startingBalance + Contribution(p, month), DailyRate(fund.rate), p.withholdingTax, MonthDays(currentDate));
  }

  /**
   * For a well-formed fund, parameters in range and a non-negative balance, the
   * running balance never decreases during the month's daily accrual and the
   * interest earned is not negative.
   */
  lemma SettlementNonDecreasing(fund: Fund, p: Params, currentDate: Date, month: int, startingBalance: real)
    requires Valid(currentDate) && WellFormed(fund) && InRange(p) && startingBalance >= 0.0
    requires SettlePeriod(fund, p, currentDate, month, startingBalance).Ok?
    ensures var r := SettlePeriod(fund, p, currentDate, month, startingBalance).value;
      && r.interest >= 0.0
      && forall i, j :: 0 <= i <= j < |r.dailyBalances| ==>
           startingBalance + Contribution(p, month) <= r.dailyBalances[i].balance <= r.dailyBalances[j].balance
  {
    var accrualStart := startingBalance + Contribution(p, month);
    var trace := DayTrace(currentDate, accrualStart, DailyRate(fund.rate), p.withholdingTax, MonthDays(currentDate)).value;
    TraceNonDecreasing(currentDate, accrualStart, DailyRate(fund.rate), p.withholdingTax, MonthDays(currentDate), trace);
    SettleFromTrace(fund, p, currentDate, month, startingBalance, trace);
    var r := SettlePeriod(fund, p, currentDate, month, startingBalance).value;
    assert r.dailyBalances == trace;
    assert r.interest == SumInterest(trace);
  }

  /**
   * Under the same conditions the management fee of the month is not negative:
   * the average of the opening and pre-fee balances is not negative.
   */
  lemma SettlementFeeNonNegative(fund: Fund, p: Params, currentDate: Date, month: int, startingBalance: real)
    requires Valid(currentDate) && WellFormed(fund) && InRange(p) && startingBalance >= 0.0
    requires SettlePeriod(fund, p, currentDate, month, startingBalance).Ok?
    ensures SettlePeriod(fund, p, currentDate, month, startingBalance).value.fee >= 0.0
  {
    var accrualStart := startingBalance + Contribution(p, month);
    assert accrualStart >= 0.0;
    var trace := DayTrace(currentDate, accrualStart, DailyRate(fund.rate), p.withholdingTax, MonthDays(currentDate)).value;
    TraceNonDecreasing(currentDate, accrualStart, DailyRate(fund.rate), p.withholdingTax, MonthDays(currentDate), trace);
    SettleFromTrace(fund, p, currentDate, month, startingBalance, trace);
    PeriodFeeNonNegative(fund, p, startingBalance, LastBalance(trace, accrualStart));
  }

  /** The fee of a month is not negative when both balances and the fee rate are not. */
  lemma PeriodFeeNonNegative(fund: Fund, p: Params, opening: real, closing: real)
    requires opening >= 0.0 && closing >= 0.0 && fund.mgtFee >= 0.0
    ensures PeriodFee(fund, p, opening, closing) >= 0.0
  {
    if p.includeFees {
      FeeNonNegative(opening, closing, fund.mgtFee);
      ManagementFeeRounding(opening, closing, fund.mgtFee);
    }
  }

}
