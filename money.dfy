/**
 * The monetary calculator of includes/functions.php: `calculateLineTotal`
 * and `calculateTax`, both `round(..., 2)`.
 *
 * Amounts are integer cents, quantities integer hundredths and tax rates
 * integer hundredths of a percent, so both calculations are an exact
 * product followed by one rounding division.
 */
module Money {

  /** PHP's `round`: n / d to the nearest integer, halves away from zero. */
  function RoundDiv(n: int, d: int): int
    requires d > 0
  {
    if n >= 0 then HalfUp(n, d) else -(HalfUp(-n, d) as int)
  }

  /** Rounding half up of a non-negative quotient. */
  function HalfUp(n: nat, d: int): nat
    requires d > 0
  {
    (2 * n + d) / (2 * d)
  }

  /** The result is within half a unit of n / d, a half going up for
      n >= 0 and down for n < 0. */
  lemma RoundDivBounds(n: int, d: int)
    requires d > 0
    ensures var r := RoundDiv(n, d);
            (n >= 0 ==> 2 * d * r - d <= 2 * n < 2 * d * r + d)
            && (n < 0 ==> 2 * d * r - d < 2 * n <= 2 * d * r + d)
  {
    if n >= 0 {
      DivBounds(2 * n + d, 2 * d);
    } else {
      DivBounds(2 * -n + d, 2 * d);
    }
  }

  lemma DivBounds(a: nat, b: int)
    requires b > 0
    ensures b * (a / b) <= a < b * (a / b) + b
  {
  }

  /** Any integer within half a unit of n / d (ties away from zero) is
      RoundDiv(n, d): the rounding is uniquely determined. */
  lemma RoundDivUnique(n: int, d: int, r: int)
    requires d > 0
    requires n >= 0 ==> 2 * d * r - d <= 2 * n < 2 * d * r + d
    requires n < 0 ==> 2 * d * r - d < 2 * n <= 2 * d * r + d
    ensures r == RoundDiv(n, d)
  {
    var q := RoundDiv(n, d);
    RoundDivBounds(n, d);
    // 2dr and 2dq lie in the same window of width 2d around 2n, so r and q
    // differ by less than one.
    assert 2 * d * (r - q) < 2 * d && 2 * d * (q - r) < 2 * d;
    AtLeastOnce(2 * d, r - q);
    AtLeastOnce(2 * d, q - r);
  }

  lemma AtLeastOnce(a: int, x: int)
    requires a >= 0
    ensures x >= 1 ==> a * x >= a
  {
    if x >= 1 {
      MulMono(a, x, 1);
    }
  }

  lemma MulMono(a: int, x: int, y: int)
    requires a >= 0 && x >= y
    ensures a * x >= a * y
  {
  }

  /** An exact multiple of the unit rounds to itself. */
  lemma RoundDivExact(k: int, d: int)
    requires d > 0
    ensures RoundDiv(k * d, d) == k
  {
    assert k * d >= 0 ==> 2 * d * k - d <= 2 * (k * d) < 2 * d * k + d;
    assert k * d < 0 ==> 2 * d * k - d < 2 * (k * d) <= 2 * d * k + d;
    RoundDivUnique(k * d, d, k);
  }

  /** `calculateLineTotal`: quantity (hundredths) times unit price (cents),
      rounded to cents, halves away from zero. */
  function LineTotal(quantity: int, unitPrice: int): int
  {
    RoundDiv(quantity * unitPrice, 100)
  }

  /** The line total is the product rounded to cents: within half a cent of
      it, halves away from zero; no other integer is. */
  lemma LineTotalRounds(quantity: int, unitPrice: int, r: int)
    ensures var p := quantity * unitPrice;
            r == LineTotal(quantity, unitPrice) <==>
              (p >= 0 ==> 100 * r - 50 <= p < 100 * r + 50) && (p < 0 ==> 100 * r - 50 < p <= 100 * r + 50)
  {
    var p := quantity * unitPrice;
    RoundDivBounds(p, 100);
    if (p >= 0 ==> 100 * r - 50 <= p < 100 * r + 50) && (p < 0 ==> 100 * r - 50 < p <= 100 * r + 50) {
      RoundDivUnique(p, 100, r);
    }
  }

  /** `calculateTax`: the amount (cents) times the rate (hundredths of a
      percent) divided by 100 %, rounded to cents, halves away from zero. */
  function Tax(amount: int, rate: int): int
  {
    RoundDiv(amount * rate, 10000)
  }

  /** The tax is amount x rate / 100 % rounded to cents: within half a cent
      of it, halves away from zero; no other integer is. */
  lemma TaxRounds(amount: int, rate: int, r: int)
    ensures var p := amount * rate;
            r == Tax(amount, rate) <==>
              (p >= 0 ==> 10000 * r - 5000 <= p < 10000 * r + 5000) && (p < 0 ==> 10000 * r - 5000 < p <= 10000 * r + 5000)
  {
    var p := amount * rate;
    RoundDivBounds(p, 10000);
    if (p >= 0 ==> 10000 * r - 5000 <= p < 10000 * r + 5000) && (p < 0 ==> 10000 * r - 5000 < p <= 10000 * r + 5000) {
      RoundDivUnique(p, 10000, r);
    }
  }

  /** A whole-number quantity gives the exact product: no rounding occurs. */
  lemma WholeQuantityExact(units: int, unitPrice: int)
    ensures LineTotal(100 * units, unitPrice) == units * unitPrice
  {
    assert 100 * units * unitPrice == (units * unitPrice) * 100;
    RoundDivExact(units * unitPrice, 100);
  }

  /** Non-negative inputs give a non-negative line total. */
  lemma LineTotalNonNegative(quantity: int, unitPrice: int)
    requires quantity >= 0 && unitPrice >= 0
    ensures LineTotal(quantity, unitPrice) >= 0
  {
    MulMono(quantity, unitPrice, 0);
  }

  /** A zero rate or a zero amount gives no tax. */
  lemma TaxOfZero(amount: int, rate: int)
    requires amount == 0 || rate == 0
    ensures Tax(amount, rate) == 0
  {
    assert amount * rate == 0 * 10000;
    RoundDivExact(0, 10000);
  }

  /** Tax is never more than the amount when the rate is at most 100 %. */
  lemma TaxAtMostAmount(amount: int, rate: int)
    requires amount >= 0 && 0 <= rate <= 10000
    ensures 0 <= Tax(amount, rate) <= amount
  {
    assert 0 <= amount * rate <= amount * 10000 by { MulMono(amount, 10000, rate); MulMono(amount, rate, 0); }
    RoundDivBounds(amount * rate, 10000);
  }

  /** Rounding to cents is monotone: a larger taxable amount is never taxed less. */
  lemma TaxMonotone(a: int, b: int, rate: int)
    requires 0 <= a <= b && rate >= 0
    ensures Tax(a, rate) <= Tax(b, rate)
  {
    assert a * rate <= b * rate by { MulMono(rate, b, a); }
    assert a * rate >= 0 by { MulMono(rate, a, 0); }
    RoundDivBounds(a * rate, 10000);
    RoundDivBounds(b * rate, 10000);
  }
}
