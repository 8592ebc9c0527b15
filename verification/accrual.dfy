/**
 * One day's after-tax interest and the monthly management fee.  Interest is
 * carried at full precision; only the fee is rounded, to whole cents, with
 * ties rounded away from zero (`Decimal.quantize` with `ROUND_HALF_UP`).
 */
module Accrual {

  /** The daily rate of an annual percentage rate: `rate / 365 / 100`. */
  function DailyRate(annualRate: real): (r: real)
    ensures r * 36500.0 == annualRate
    ensures annualRate > 0.0 ==> r > 0.0
  {
    annualRate / 365.0 / 100.0
  }

  /**
   * `calculate_daily_interest`: the interest a balance earns in one day, less
   * the withholding tax (a percentage) on that interest.
   */
  function DailyInterest(balance: real, dailyRate: real, withholdingTax: real): real {
    balance * dailyRate * (1.0 - withholdingTax / 100.0)
  }

  /**
   * The after-tax interest is the gross interest less the tax share of it: all
   * of it with no tax, none with a 100% tax, never negative nor above the gross
   * interest for a non-negative balance and rate, and positive for a positive
   * balance and rate below a 100% tax.
   */
  lemma DailyInterestBounds(balance: real, dailyRate: real, withholdingTax: real)
    ensures var i := DailyInterest(balance, dailyRate, withholdingTax);
      && (withholdingTax == 100.0 ==> i == 0.0)
      && (withholdingTax == 0.0 ==> i == balance * dailyRate)
      && i + balance * dailyRate * withholdingTax / 100.0 == balance * dailyRate
      && (balance >= 0.0 && dailyRate >= 0.0 && 0.0 <= withholdingTax <= 100.0 ==> 0.0 <= i <= balance * dailyRate)
      && (balance > 0.0 && dailyRate > 0.0 && withholdingTax < 100.0 ==> i > 0.0)
  {
    AfterTaxBounds(balance, dailyRate, withholdingTax);
  }

  lemma AfterTaxBounds(balance: real, dailyRate: real, withholdingTax: real)
    ensures var gross := balance * dailyRate;
      var net := gross * (1.0 - withholdingTax / 100.0);
      && (balance >= 0.0 && dailyRate >= 0.0 && 0.0 <= withholdingTax <= 100.0 ==> 0.0 <= net <= gross)
      && (balance > 0.0 && dailyRate > 0.0 && withholdingTax < 100.0 ==> net > 0.0)
  {
    var gross := balance * dailyRate;
    var k := 1.0 - withholdingTax / 100.0;
    if balance >= 0.0 && dailyRate >= 0.0 && 0.0 <= withholdingTax <= 100.0 {
      MonotoneProduct(0.0, balance, dailyRate);
      MonotoneProduct(0.0, k, gross);
      MonotoneProduct(k, 1.0, gross);
    }
    if balance > 0.0 && dailyRate > 0.0 && withholdingTax < 100.0 {
      PositiveProduct(balance, dailyRate);
      PositiveProduct(gross, k);
    }
  }

  lemma PositiveProduct(x: real, y: real)
    requires x > 0.0 && y > 0.0
    ensures x * y > 0.0
  {
  }

  /**
   * Daily interest grows with the balance and with the rate and shrinks as the
   * withholding tax rises.
   */
  lemma DailyInterestMonotone(b1: real, b2: real, r1: real, r2: real, t1: real, t2: real)
    requires 0.0 <= b1 <= b2 && 0.0 <= r1 <= r2 && 0.0 <= t2 <= t1 <= 100.0
    ensures DailyInterest(b1, r1, t1) <= DailyInterest(b2, r2, t2)
  {
    ScaledMonotone(b1, b2, r1, r2);
    ScaledMonotone(b1 * r1, b2 * r2, 1.0 - t1 / 100.0, 1.0 - t2 / 100.0);
  }

  lemma ScaledMonotone(x1: real, x2: real, k1: real, k2: real)
    requires 0.0 <= x1 <= x2 && 0.0 <= k1 <= k2
    ensures 0.0 <= x1 * k1 <= x2 * k2
  {
    MonotoneProduct(x1, x2, k1);
    MonotoneProduct(k1, k2, x2);
    MonotoneProduct(0.0, x1, k1);
  }

  lemma MonotoneProduct(x: real, y: real, k: real)
    requires x <= y && k >= 0.0
    ensures x * k <= y * k
  {
  }

  /**
   * Rounds `x` to a whole number of hundredths and returns that number, half
   * up as `ROUND_HALF_UP` does (its meaning is `RoundHalfUpCentsNearest`).
   */
  function RoundHalfUpCents(x: real): int {
    if x >= 0.0 then (100.0 * x + 0.5).Floor else -((0.5 - 100.0 * x).Floor)
  }

  /** The rounding yields the nearest number of cents; a tie goes away from zero. */
  lemma RoundHalfUpCentsNearest(x: real)
    ensures var c := RoundHalfUpCents(x);
      && -0.5 <= c as real - 100.0 * x <= 0.5
      && (c as real - 100.0 * x == 0.5 ==> x > 0.0)
      && (c as real - 100.0 * x == -0.5 ==> x < 0.0)
  {
  }

  /** The exact monthly fee on the average of the opening and closing balances. */
  function ExactFee(opening: real, closing: real, feeRate: real): real {
    (opening + closing) / 2.0 * feeRate / 100.0 / 12.0
  }

  /**
   * `calculate_management_fee`: the exact monthly fee on the average balance,
   * rounded to cents (its properties are `ManagementFeeRounding`).
   */
  function ManagementFee(opening: real, closing: real, feeRate: real): real {
    RoundHalfUpCents(ExactFee(opening, closing, feeRate)) as real / 100.0
  }

  /**
   * The fee is a whole number of cents within half a cent of the exact fee,
   * a half-cent tie is charged upwards, and a fee on a non-negative average
   * balance at a non-negative rate is not negative.
   */
  lemma ManagementFeeRounding(opening: real, closing: real, feeRate: real)
    ensures var fee := ManagementFee(opening, closing, feeRate);
      var exact := ExactFee(opening, closing, feeRate);
      && (fee * 100.0).Floor as real == fee * 100.0
      && -0.005 <= fee - exact <= 0.005
      && (fee - exact == 0.005 ==> exact > 0.0)
      && (fee - exact == -0.005 ==> exact < 0.0)
      && (exact >= 0.0 ==> fee >= 0.0)
  {
    var c := RoundHalfUpCents(ExactFee(opening, closing, feeRate));
    RoundHalfUpCentsNearest(ExactFee(opening, closing, feeRate));
    assert ManagementFee(opening, closing, feeRate) * 100.0 == c as real;
  }

  lemma FeeNonNegative(opening: real, closing: real, feeRate: real)
    requires opening + closing >= 0.0 && feeRate >= 0.0
    ensures ExactFee(opening, closing, feeRate) >= 0.0
  {
    MonotoneProduct(0.0, (opening + closing) / 2.0, feeRate);
  }
}
