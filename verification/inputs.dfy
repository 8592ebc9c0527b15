/**
 * The inputs of a projection: a fund record with its construction checks, the
 * run parameters, and the parameter validation that precedes every comparison.
 * Money amounts and percentages are exact decimals, modelled as `real`.
 */
module Inputs {
  import opened Outcomes
  import opened Calendar

  /** One money-market fund: annual rate and annual management fee in percent. */
  datatype Fund = Fund(name: string, rate: real, mgtFee: real, minimumInvestment: real)

  /** The run parameters (the `params` dictionary); the unused dividend flag is dropped. */
  datatype Params = Params(
    initialCapital: real,
    monthlyContribution: real,
    investmentPeriod: real,
    withholdingTax: real,
    includeFees: bool,
    startDate: Date)

  datatype FundError = EmptyName | InvalidRate | InvalidFee | InvalidMinimum

  /**
   * The documented invariant of a fund record: a name, a positive rate, and a
   * fee and a minimum investment that are not negative.
   */
  predicate WellFormed(f: Fund) {
    f.name != [] && f.rate > 0.0 && f.mgtFee >= 0.0 && f.minimumInvestment >= 0.0
  }

  /**
   * `Fund.__post_init__` as written: each check is `not x or ... or x < 0`, and
   * since `not Decimal(0)` is true a zero fee or a zero minimum is rejected too.
   * The checks run in field order and the first one that fails is reported.
   */
  function NewFundAsWritten(name: string, rate: real, mgtFee: real, minimumInvestment: real): (r: Result<Fund, FundError>)
    ensures r.Ok? <==> WellFormed(Fund(name, rate, mgtFee, minimumInvestment)) && mgtFee != 0.0 && minimumInvestment != 0.0
    ensures r.Ok? ==> r.value == Fund(name, rate, mgtFee, minimumInvestment)
    ensures r == Err(EmptyName) <==> name == []
    ensures r == Err(InvalidRate) <==> name != [] && rate <= 0.0
    ensures r == Err(InvalidFee) <==> name != [] && rate > 0.0 && mgtFee <= 0.0
  {
    if name == [] then Err(EmptyName)
    else if rate == 0.0 || rate <= 0.0 then Err(InvalidRate)
    else if mgtFee == 0.0 || mgtFee < 0.0 then Err(InvalidFee)
    else if minimumInvestment == 0.0 || minimumInvestment < 0.0 then Err(InvalidMinimum)
    else Ok(Fund(name, rate, mgtFee, minimumInvestment))
  }

  /** A fee-free fund is refused by the checks as written, though its fields meet the record's invariant. */
  lemma ZeroFeeRefused(name: string, rate: real, minimumInvestment: real)
    requires name != [] && rate > 0.0 && minimumInvestment > 0.0
    ensures WellFormed(Fund(name, rate, 0.0, minimumInvestment))
    ensures NewFundAsWritten(name, rate, 0.0, minimumInvestment) == Err(InvalidFee)
    ensures NewFund(name, rate, 0.0, minimumInvestment).Ok?
  {
  }

  /** A fund without a minimum investment is refused by the checks as written too. */
  lemma ZeroMinimumRefused(name: string, rate: real, mgtFee: real)
    requires name != [] && rate > 0.0 && mgtFee > 0.0
    ensures WellFormed(Fund(name, rate, mgtFee, 0.0))
    ensures NewFundAsWritten(name, rate, mgtFee, 0.0) == Err(InvalidMinimum)
    ensures NewFund(name, rate, mgtFee, 0.0).Ok?
  {
  }

  /**
   * The fund checks with the evident intent of their `< 0` comparisons: zero
   * fees and zero minimums are accepted, exactly the well-formed records pass.
   */
  function NewFund(name: string, rate: real, mgtFee: real, minimumInvestment: real): (r: Result<Fund, FundError>)
    ensures r.Ok? <==> WellFormed(Fund(name, rate, mgtFee, minimumInvestment))
    ensures r.Ok? ==> r.value == Fund(name, rate, mgtFee, minimumInvestment)
    ensures r == Err(EmptyName) <==> name == []
    ensures r == Err(InvalidRate) <==> name != [] && rate <= 0.0
    ensures r == Err(InvalidFee) <==> name != [] && rate > 0.0 && mgtFee < 0.0
  {
    if name == [] then Err(EmptyName)
    else if rate <= 0.0 then Err(InvalidRate)
    else if mgtFee < 0.0 then Err(InvalidFee)
    else if minimumInvestment < 0.0 then Err(InvalidMinimum)
    else Ok(Fund(name, rate, mgtFee, minimumInvestment))
  }

  datatype ParamError =
    | NonPositiveCapital
    | NegativeContribution
    | NonPositivePeriod
    | TaxOutOfRange
    | NoFunds
    | BelowMinimum(lowest: real, fundName: string)

  /** The documented ranges of the run parameters. */
  predicate InRange(p: Params) {
    p.initialCapital > 0.0 && p.monthlyContribution >= 0.0 && p.investmentPeriod > 0.0
    && 0.0 <= p.withholdingTax <= 100.0
  }

  /** The funds whose minimum investment exceeds the capital. */
  function Excluded(funds: seq<Fund>, capital: real): (r: seq<Fund>)
    ensures |r| <= |funds|
    ensures forall f :: f in r <==> f in funds && f.minimumInvestment > capital
  {
    if funds == [] then []
    else (if funds[0].minimumInvestment > capital then [funds[0]] else []) + Excluded(funds[1..], capital)
  }

  /** The funds whose minimum investment the capital meets. */
  function Available(funds: seq<Fund>, capital: real): (r: seq<Fund>)
    ensures |r| <= |funds|
    ensures forall f :: f in r <==> f in funds && f.minimumInvestment <= capital
  {
    if funds == [] then []
    else (if funds[0].minimumInvestment <= capital then [funds[0]] else []) + Available(funds[1..], capital)
  }

  /** The smallest minimum investment among the funds (Python's `min`). */
  function LowestMinimum(funds: seq<Fund>): (m: real)
    requires funds != []
    ensures exists i :: 0 <= i < |funds| && funds[i].minimumInvestment == m
    ensures forall i :: 0 <= i < |funds| ==> m <= funds[i].minimumInvestment
  {
    if |funds| == 1 then funds[0].minimumInvestment
    else
      var rest := LowestMinimum(funds[1..]);
      assert forall i :: 1 <= i < |funds| ==> funds[i] == funds[1..][i - 1];
      if funds[0].minimumInvestment <= rest then funds[0].minimumInvestment else rest
  }

  /** Position of the first fund whose minimum investment is `m` (Python's `next(...)`). */
  function FirstWithMinimum(funds: seq<Fund>, m: real): (i: nat)
    requires exists j :: 0 <= j < |funds| && funds[j].minimumInvestment == m
    ensures i < |funds| && funds[i].minimumInvestment == m
    ensures forall j :: 0 <= j < i ==> funds[j].minimumInvestment != m
  {
    if funds[0].minimumInvestment == m then 0
    else
      assert exists j :: 0 <= j < |funds[1..]| && funds[1..][j].minimumInvestment == m by {
        var j :| 0 <= j < |funds| && funds[j].minimumInvestment == m;
        assert funds[1..][j - 1] == funds[j];
      }
      1 + FirstWithMinimum(funds[1..], m)
  }

  /**
   * `validate_parameters`: the range checks in order, then the minimum-investment
   * rule.  It fails only when no fund is affordable; otherwise it yields the funds
   * that are merely warned about (their minimum exceeds the capital) and removes
   * nothing.  With no funds at all, Python's `min` of an empty list fails.
   */
  function ValidateParameters(p: Params, funds: seq<Fund>): (r: Result<seq<Fund>, ParamError>)
    ensures r.Ok? <==> InRange(p) && exists i :: 0 <= i < |funds| && funds[i].minimumInvestment <= p.initialCapital
    ensures r.Ok? ==> forall f :: f in r.value <==> f in funds && f.minimumInvestment > p.initialCapital
    ensures r == Err(NonPositiveCapital) <==> p.initialCapital <= 0.0
    ensures r == Err(NegativeContribution) <==> p.initialCapital > 0.0 && p.monthlyContribution < 0.0
    ensures r == Err(NonPositivePeriod) <==>
      p.initialCapital > 0.0 && p.monthlyContribution >= 0.0 && p.investmentPeriod <= 0.0
    ensures r == Err(TaxOutOfRange) <==>
      p.initialCapital > 0.0 && p.monthlyContribution >= 0.0 && p.investmentPeriod > 0.0
      && !(0.0 <= p.withholdingTax <= 100.0)
    ensures r == Err(NoFunds) <==> InRange(p) && funds == []
    ensures r.Err? && r.error.BelowMinimum? ==>
      && InRange(p) && funds != []
      && r.error.lowest > p.initialCapital
      && (forall f :: f in funds ==> r.error.lowest <= f.minimumInvestment)
      && exists i :: 0 <= i < |funds| && funds[i].minimumInvestment == r.error.lowest && funds[i].name == r.error.fundName
                     && forall j :: 0 <= j < i ==> funds[j].minimumInvestment != r.error.lowest
  {
    if p.initialCapital <= 0.0 then Err(NonPositiveCapital)
    else if p.monthlyContribution < 0.0 then Err(NegativeContribution)
    else if p.investmentPeriod <= 0.0 then Err(NonPositivePeriod)
    else if !(0.0 <= p.withholdingTax <= 100.0) then Err(TaxOutOfRange)
    else
      if Available(funds, p.initialCapital) == [] then
        if funds == [] then Err(NoFunds)
        else
          var lowest := LowestMinimum(funds);
          var i := FirstWithMinimum(funds, lowest);
          assert funds[i] in funds;
          Err(BelowMinimum(lowest, funds[i].name))
      else
        assert Available(funds, p.initialCapital)[0] in funds;
        Ok(Excluded(funds, p.initialCapital))
  }
}
